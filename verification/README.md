# RaibitServer control plane: verified model

RaibitServer is a self-hosted deployment platform. This project models the parts of its control
plane whose correctness rests on several functions together, and proves what they promise:

- **Domain rentals.** A user rents names under one base domain, each redirecting to a target. The
  name, host and target rules (`RentalNames`, `ReservedNames`), the table with quota and audit log
  (`RentalRows`, `RentalJobs`), what each request does told by its body, the account and the rows
  (`RentalRequests`), the in-memory adapter as a class whose queued methods are proved to be atomic
  jobs (`MemoryRentals`), how long custom-domain records last beside them (`DomainClaims`),
  the public resolver (`RentalResolver`) and the PostgreSQL adapter as a state machine over
  interleaved transactions (`PostgresRentals`), with the conditions under which they block each other
  (`RentalProgress`).
- **Deployment replay and history.** Image pinning (`ImageReferences`), retry and redeploy
  successors (`DeploymentOperations`), keyset pages with signed cursors (`HistoryPages`), the actions
  the history offers (`HistoryActions`), and the operations behind them over whole runs with
  idempotency keys (`OperationRuns`).
- **Routes.** Generated DNS labels and preview host names (`DomainRouter`).
- **Text protocols.** Server-sent events from writer to reader (`EventStreams`), browser-safe
  payloads (`SafePayload`), the SQL policy scanner (`SqlScanner`), printable shell commands
  (`ShellCommands`).
- **Authorization.** The action and scope checks on one mutable subject (`Authorization`).

Beside the results about runs and round trips, each operation has results that say what it decides and
stores on the fields of its inputs, without naming the functions it is built from.

`Text`, `Json` and `Sorting` hold shared vocabulary. Code that changes state step by step is a class
or a loop proved against a specification function; code made of expressions is functions.

Library code enters as function values with stated laws: the URL parser, the string order, time
stamps, HMAC, SHA-256, JSON parsing and response schemas, case mapping. Clocks, generated ids and
adapter failures are parameters of each step.

Some promises turned out to be false of the code; each has a failing input and the exact condition:

- `PostgresRentals.DisjointIffFreshReads`: the comments in the migration (lines 18-20) and in
  `raibitserver.service.ts` (lines 410-411) say the triggers keep rentals and custom domains
  disjoint. The custom-domain transaction is Serializable, so its trigger reads an old snapshot.
  `DisjointThroughoutIff` says which schedules stay disjoint, `SnapshotMissesRental` gives one that
  does not.
- `RentalProgress.DeadlockIff`: the migration (lines 18-20) has both registration paths take the same
  lock, so that concurrent requests for a host name are decided. They need not be. A rental takes
  its owner's User row and then the host name; a registration takes the host name and then, by the
  foreign key of its audit entry, its actor's User row. Only the deadlock detector of the
  database ends that (`RegistrationBlocksRental`, `KnotNeverEnds`).
- `HistoryActions.RedeployOfferHonouredIff`: the history offers a redeploy of the newest replayable
  deployment; the operation picks the newest one with an eligible status. And the history does not
  look at the service, the project or the quota, so an offered retry or redeploy is refused where one
  of them stands in the way (`RetryOfferHonouredIff`, `RetryOfferRefused`).
- `OperationRuns.OneActiveIff`: an operation refuses to start beside an active deployment, but a
  service can still have two. The lifecycle lets a failed deployment go back to building after it
  was retried (`FailedCanDouble`).
- `OperationRuns.LineageLastsIff`: `docs/handbook/deployment-requirements.md` line 276 says snapshot and
  lineage of a history row are not subject to change. The in-memory store puts a deployment under an
  id made from service and commit, so a second deployment of a commit replaces the first
  (`SameCommitReplaces`), and of a service with a long id every deployment does
  (`LongServiceSharesId`).
- `DomainClaims.ClaimKeepsRecordsIff`: a custom-domain record is stored under a slug of its host name,
  and slugs do not tell a dot from a hyphen, so an accepted claim can overwrite the record of another
  host name (`LaterClaimDisplaces`).
- `ImageReferences.OciNameAcceptedIff`: a first path component with a dot and a doubled separator is
  a legal repository name but is refused.
- `DomainRouter.PatternMeetsRuntimeIff`: the comment at `domain-router.ts` lines 10-12 says pattern
  and runtime host name are identical. The plan uses the service's name, the runtime its slug or,
  where `preview-lineage.ts` hands over ids only, the ids; the plan drops the name of a service that
  is not a public web service; and the plan uses the base domain of the specification, the runtime
  the one of the service or the project (`OwnBaseMissesPattern`).
- `DomainRouter.HostsAgreeIff`: services and previews of different places get different host names,
  consoles do not always, because their identity joins project and service by one hyphen.

`Authorization.OrdersAgreeIff` is the boundary of a promise that holds: the two orders of checking
can only differ on an action named by the empty string, which no route names.

## Model

| member | source | states |
|---|---|---|
| RentalNames.NormalizeName | packages/core/src/domain-rentals.ts:85-91 | A name is accepted exactly when its trimmed, lower-cased form is an unreserved DNS label, and as that form. |
| RentalNames.NameSpellingsAccepted | packages/core/src/domain-rentals.ts:85-91 | Every spelling of a rentable name in other letter case or with white space around it is accepted as the name. |
| RentalNames.RentableHostRecognized | packages/core/src/domain-rentals.ts:94-101 | The host recognizer is the identity on every rentable host name. |
| RentalNames.HostRecognizedIff | packages/core/src/domain-rentals.ts:94-101 | A Host header is read as a rentable host name exactly when it is that name in some letter case, then a dot or none, then a colon and one to five digits or nothing. |
| ReservedNames.ZonesReserved | packages/core/src/domain-rentals.ts:15-83 | Every name with a platform zone or the punycode mark in front is reserved. |
| RentalNames.SpellingsStayOutside | packages/core/src/domain-rentals.ts:94-101 | If a host name is not rentable, no spelling of it in other letter case, with a trailing dot or a port is. |
| RentalNames.NormalizeTarget | packages/core/src/domain-rentals.ts:119-137 | An accepted target is the parser's rendering of an admitted URL, at most 4096 characters, whose host is not rentable. |
| RentalNames.NormalizeTargetIdempotent | packages/core/src/domain-rentals.ts:119-137 | An accepted target is accepted again and unchanged. |
| RentalRows.HoldingsAfterReplacement | packages/core/src/domain-rentals.ts:280-280 | An update changes nobody's number of rentals. |
| RentalJobs.ParseCreate | packages/core/src/domain-rentals.ts:193-200 | A parsed creation has a rentable host name and a target that serving normalizes to itself. |
| RentalJobs.ParseUpdate | packages/core/src/domain-rentals.ts:212-220 | So does every parsed change of a host name or target. |
| RentalJobs.ApplyKeepsInv | packages/core/src/domain-rentals.ts:193-246 | Every job, accepted or refused, keeps the table and log invariants. |
| RentalJobs.HostnamesStaySafe | packages/core/src/domain-rentals.ts:193-246 | Over every run of rental and custom-domain jobs with any adapter failures: host names are unique, rentable, disjoint from custom domains, and no owner holds more than five. |
| RentalJobs.LogRebuildsTable | packages/core/src/domain-rentals.ts:264-292 | Between jobs, replaying the audit log from empty gives the table, and every version counts the row's create and update events. |
| RentalJobs.ConsumedOnce | packages/core/src/domain-rentals.ts:212-246 | A (rental id, version) pair is consumed by at most one successful update or removal in any run. |
| RentalJobs.StoredTargetsServe | packages/core/src/domain-rentals.ts:193-259 | Every target stored in any reachable state is served as stored: resolving never throws on it. |
| RentalRequests.TargetAcceptedIff | packages/core/src/domain-rentals.ts:119-137 | A target is accepted exactly when it is non-blank text of at most 4096 characters without control characters, backslash or encoded line break, for an http(s) URL without credentials of a public host that is not rentable, and stored as the rendering of that URL. |
| RentalRequests.CreateAcceptedIff | packages/core/src/domain-rentals.ts:193-210 | A creation is accepted exactly when its body fits, the account is approved and not banned and holds fewer than five names as a club member or two otherwise, and neither a rental nor a custom domain has the host name. |
| RentalRequests.UpdateAcceptedIff | packages/core/src/domain-rentals.ts:212-234 | An update is accepted exactly when its body fits, the account is open, the caller owns the row at the version sent, and a host name that changes is available. |
| RentalRequests.RemoveAcceptedIff | packages/core/src/domain-rentals.ts:236-246 | A removal is accepted exactly when its body fits, the account is open and the caller owns the row at the version sent. |
| RentalRequests.TargetReasons | packages/core/src/domain-rentals.ts:220-223 | Refused for the account first, then because no row of the caller has the id, then for its version. |
| RentalRequests.CreateStores | packages/core/src/domain-rentals.ts:203-208 | An accepted creation adds exactly the row of the body with version 1, and its event. |
| RentalRequests.UpdateStores | packages/core/src/domain-rentals.ts:227-232 | An accepted update replaces exactly the named row, which is the caller's: host name, target and flag from the body where it sends them and as they were where not, the next version, the creation time kept. |
| RentalRequests.RemoveDrops | packages/core/src/domain-rentals.ts:239-245 | An accepted removal drops exactly the named row, which is the caller's. |
| RentalRequests.OthersUntouched | packages/core/src/domain-rentals.ts:193-246 | Whatever the job and its outcome, the rows of everybody else are exactly the same afterwards. |
| MemoryRentals.MemoryDomainRentalRepository.CreateWork | packages/core/src/domain-rentals.ts:196-209 | The body of a creation refuses for exactly the specified reason, in order, or records the new row. |
| MemoryRentals.MemoryDomainRentalRepository.UpdateWork | packages/core/src/domain-rentals.ts:219-233 | The body of an update refuses for exactly the specified reason, or records the revised row with the next version; `RentalRequests.UpdateAcceptedIff` and `UpdateStores` say on the fields which and what. |
| MemoryRentals.MemoryDomainRentalRepository.RemoveWork | packages/core/src/domain-rentals.ts:238-245 | The body of a removal refuses for exactly the specified reason, or drops the row; `RentalRequests.RemoveAcceptedIff` and `RemoveDrops` say which. |
| MemoryRentals.MemoryDomainRentalRepository.Create | packages/core/src/domain-rentals.ts:193-210 | The queued creation is the atomic transition: a refusal leaves no trace. |
| MemoryRentals.MemoryDomainRentalRepository.Update | packages/core/src/domain-rentals.ts:212-234 | The queued update is the atomic transition. |
| MemoryRentals.MemoryDomainRentalRepository.Remove | packages/core/src/domain-rentals.ts:236-246 | The queued removal is the atomic transition. |
| MemoryRentals.MemoryDomainRentalRepository.ClaimDomain | apps/api/src/raibitserver.service.ts:400-424 | A custom-domain registration on the same queue is the atomic transition; an accepted host name is not rented. |
| DomainClaims.ClaimKeepsRecordsIff | packages/core/src/store.ts:1932-1947 | An accepted claim keeps every earlier custom-domain record exactly when no earlier host name has the record id of its own. |
| DomainClaims.ClaimLastsIff | packages/core/src/store.ts:1932-1947 | Through any run of rental and custom-domain jobs a record stays as it is exactly when no accepted claim on the way has its id. |
| DomainClaims.AlikeShareId | packages/core/src/ids.ts:1-14 | Host names that differ only in which punctuation stands where have the same record id. |
| DomainClaims.LaterClaimDisplaces | packages/core/src/store.ts:1944-1947 | Of two such host names claimed one after the other, no record names the first any more. |
| DomainClaims.AlikeClaimsCollide | packages/core/src/store.ts:1944-1947 | On an empty store any two such host names are both accepted, and only the second is left. |
| DomainClaims.CollidingHosts | packages/core/src/domain.ts:67-79 | The host names a.b.com and a-b.com are such a pair, both in normal form. |
| RentalResolver.QuotaOrderSorts | packages/core/src/domain-rentals.ts:166-168 | The quota order is exactly the owner's rows, oldest first. |
| RentalResolver.ListingByFields | packages/core/src/domain-rentals.ts:166-191 | Exactly the rentals of the owner are listed, each behind those created earlier or at the same time with a lesser id, and exactly those with five or two of them in front are suspended. |
| RentalResolver.ResolvesByFields | packages/core/src/domain-rentals.ts:248-260 | An enabled row of an open account resolves to its target exactly when fewer than five or two rentals of its owner are older; any other row resolves to nothing. |
| RentalResolver.RemovalPromotesNextOldest | packages/core/src/domain-rentals.ts:178-191 | Removing an eligible rental gives the free slot to exactly the oldest suspended one; removing a suspended one changes no eligibility. |
| RentalResolver.ResolvesIffListed | packages/core/src/domain-rentals.ts:248-260 | In every reachable state, for an allowed owner, a stored name resolves exactly when it is enabled and listed as not suspended, and then to its stored target. |
| RentalResolver.UnknownHostsResolveToNothing | packages/core/src/domain-rentals.ts:248-252 | A host that is not recognized, or has no row, resolves to nothing. |
| RentalResolver.AtMostLimitResolve | packages/core/src/domain-rentals.ts:248-260 | However many names an owner kept after a downgrade, at most the current limit resolve. |
| RentalResolver.NoRedirectChain | packages/core/src/domain-rentals.ts:130-133 | No spelling of the host of a served target resolves, in this or any other state of the store, for any users and clock. |
| PostgresRentals.StepKeepsOwner | packages/core/src/domain-rentals-postgres.ts:49-64 | Every database step keeps what the row-locked transactions have read true of the committed data. |
| PostgresRentals.StepKeepsHost | prisma/migrations/202609291300_domain_rentals/migration.sql:15-43 | Every database step keeps host names unique and what the lock holders have checked true. |
| PostgresRentals.InsertCommitsWithinQuota | packages/core/src/domain-rentals-postgres.ts:49-57 | Under every interleaving a committed insertion adds exactly its row under a new id and leaves its owner with at most five or two names, by the account type in force at the commit. |
| PostgresRentals.RevisionNeverConflicts | packages/core/src/domain-rentals-postgres.ts:27-35 | A revision that passed its version check meets the version predicate at the write and commits exactly one change: the row it read, its own owner's, with the fields of the request, the others as they were and the next version. |
| PostgresRentals.RemovalNeverMisses | packages/core/src/domain-rentals-postgres.ts:36-36 | A removal that passed its version check finds its row at the write and at the commit, and that row is its owner's. |
| PostgresRentals.HostsStayUnique | prisma/migrations/202609291300_domain_rentals/migration.sql:15-15 | Rental host names are unique in every reachable state at every isolation level. |
| PostgresRentals.DisjointIffFreshReads | packages/core/src/persistence.ts:1516-1541 | Rentals and custom domains are disjoint under every schedule exactly when the custom-domain trigger reads what is committed at that moment. |
| PostgresRentals.ClearWritesStayDisjoint | packages/core/src/persistence.ts:1516-1541 | At every isolation level, a schedule in which no trigger of a custom domain runs while a rental of its host name is committed ends disjoint. |
| PostgresRentals.DisjointThroughoutIff | packages/core/src/persistence.ts:3674-3678 | At every isolation level, a schedule is disjoint all the time exactly when it commits no custom domain while a rental of its host name is committed. |
| PostgresRentals.SnapshotMissesRental | packages/core/src/persistence.ts:3674-3678 | With a transaction snapshot, a schedule of thirteen steps commits a rental and a custom domain of the same host name. |
| RentalProgress.NextStepEnabledIff | packages/core/src/persistence.ts:1516-1541 | An open rental or registration can take its next statement exactly when it waits for no User row, host name or record id and its check does not fail. |
| RentalProgress.DeadlockIff | prisma/migrations/000001_init/migration.sql:546-546 | In every reachable state, waiting leads back exactly when registrations without their audit entry and rentals ready to write make a knot: each rental belongs to the actor of the registration before it and is to write the host name of the next. |
| RentalProgress.KnotNeverEnds | packages/core/src/domain-rentals-postgres.ts:49-64 | Whatever statements the open transactions run, a knot stays. |
| RentalProgress.RegistrationBlocksRental | packages/core/src/persistence.ts:1532-1534 | A user who registers a host name and rents it at the same time reaches a knot of two transactions. |
| RentalProgress.SeparateChainsEnd | prisma/migrations/202609291300_domain_rentals/migration.sql:17-43 | While no user has a registration and a rental open at once, waiting never leads back, and no chain of waiting transactions is longer than four. |
| RentalProgress.SeparateRunsCanEnd | packages/core/src/domain-rentals-postgres.ts:49-64 | From every such state all open transactions can end by their own statements, giving up only where their own check fails. |
| ImageReferences.SpellingsAgree | packages/core/src/deployment-operations.ts:91-109 | Embedded, separate or both digests, in any letter case, with or without a tag, pin to the same repository@digest. |
| ImageReferences.PinnedIff | packages/core/src/deployment-operations.ts:91-109 | A reference is pinned exactly when it is a repository, a tag of at most 128 characters or none, and one digest of 64 hexadecimal digits, not all zero, behind the name, apart or both; and to that repository at that digest. |
| ImageReferences.SegmentIff | packages/core/src/deployment-operations.ts:104-104 | A path component is accepted exactly when it has letters and digits at both ends, two separators in a row only if they are equal and no dots, and no three underscores. |
| ImageReferences.RegistryHostIff | packages/core/src/deployment-operations.ts:105-105 | A registry host is exactly a path component without underscores and doubled hyphens. |
| ImageReferences.PortIff | packages/core/src/deployment-operations.ts:105-105 | A port is accepted exactly when it is the decimal of a number from 1 to 65535. |
| ImageReferences.PinIdempotent | packages/core/src/deployment-operations.ts:91-109 | Pinning a pinned reference changes nothing. |
| ImageReferences.OciNameAcceptedIff | packages/core/src/deployment-operations.ts:102-105 | A name of the OCI distribution grammar is accepted exactly when its first component stands alone, has no dot, or reads as a registry host. |
| ImageReferences.OciNameRefused | packages/core/src/deployment-operations.ts:103-105 | The grammatical name a__b.c/x is refused. |
| DeploymentOperations.PinsFixedPoint | packages/core/src/deployment-operations.ts:73-133 | Pinning the pinned fields of a successor gives them again, with the same source kind. |
| DeploymentOperations.ReplayStep | packages/core/src/deployment-operations.ts:111-133 | A stored successor with an eligible status is accepted as the next source and pins the same things. |
| DeploymentOperations.ReplayChain | packages/core/src/deployment-operations.ts:111-133 | Along every finite chain of retries and redeploys snapshot, version, source kind, commits, image, branch and preview identity never change. |
| DeploymentOperations.KindByFields | packages/core/src/deployment-operations.ts:73-81 | Which texts of the snapshot make a source local, an image or a repository. |
| DeploymentOperations.CommitByFields | packages/core/src/deployment-operations.ts:83-89 | A commit is pinned exactly when SHA or else hash is 40 or 64 hexadecimal digits, not all zero, and the two do not contradict each other; and it is that one. |
| DeploymentOperations.SuccessorByFields | packages/core/src/deployment-operations.ts:117-132 | Every field of a successor, on the source's own fields and the request: commits, image, branch, type, preview, lineage and key. |
| DeploymentOperations.SuccessorReasons | packages/core/src/deployment-operations.ts:111-119 | Which requests are accepted, and the reason of each refusal in the order of the checks. |
| HistoryPages.CursorRoundTrip | packages/core/src/deployment-history.ts:118-138 | A cursor decodes to the position it was made from. |
| HistoryPages.CursorBoundToScope | packages/core/src/deployment-history.ts:125-138 | A cursor of another organization, project or filter set is refused. |
| HistoryPages.FollowIsWalk | packages/core/src/deployment-history.ts:58-85 | Following cursor texts is walking positions. |
| HistoryPages.PagesDescendStrictly | packages/core/src/deployment-history.ts:58-85 | Whatever happens to the table between pages, the collected rows strictly descend in position, so none repeats. |
| HistoryPages.StableRowsAppearOnce | packages/core/src/deployment-history.ts:58-85 | A row that is present and matches on every visit of a finished reading is collected exactly once. |
| HistoryPages.FixedTableComplete | packages/core/src/deployment-history.ts:58-85 | On a fixed table any page sizes reach the end and collect exactly the matching rows, newest first. |
| HistoryPages.CollectedByFields | packages/core/src/deployment-history.ts:187-192 | Whatever happens to the table between pages, every collected row comes from a table that was read and meets every filter that is set: service, environment, status, trigger and times; and the rows come newest first, by time and id. |
| HistoryPages.FixedTableByFields | packages/core/src/deployment-history.ts:58-85 | On a fixed table the rows collected are exactly those that meet every filter. |
| HistoryPages.PageByFields | packages/core/src/deployment-history.ts:66-82 | A page is the first rows of what is left, up to the limit; its cursor is the position of the last of them exactly where more are left. |
| HistoryPages.CursorAcceptedIff | packages/core/src/deployment-history.ts:125-138 | A cursor is accepted exactly when it can be read, names this organization, project and filter set, holds a readable time, and carries their signature under the configured secret. |
| HistoryActions.OfferedReplayAccepted | packages/core/src/deployment-history.ts:146-176 | An offered retry or redeploy comes from a source the successor function accepts with the offered snapshot version. |
| HistoryActions.OffersOnlyWhenQuiet | packages/core/src/deployment-history.ts:146-164 | Retry, redeploy and rollback are offered only while every other deployment of the service is terminal. |
| HistoryActions.ActionTable | packages/core/src/deployment-history.ts:146-156 | Exactly which action a row offers, with target and address: cancel, retry, rollback, redeploy or none, by status, right, the other rows' statuses and images, and what can be replayed. |
| HistoryActions.RedeployFromNewest | packages/core/src/deployment-history.ts:153-154 | The source of an offered redeploy is the newest that can be replayed, by time and id. |
| HistoryActions.CanReplayIff | packages/core/src/deployment-history.ts:166-176 | A deployment can be replayed exactly when it has a snapshot of version 1, a status the operation takes, and commits or image that can be pinned. |
| HistoryActions.RetryReasons | packages/core/src/deployment-history.ts:158-164 | The reason a row is not retried, in the order of the checks. |
| HistoryActions.ShippedLifecycle | packages/core/src/lifecycle-v1.json:8-92 | Exactly queued, building and image-ready deployments can be cancelled, and exactly five states count as completed. |
| HistoryActions.DecisionTable | packages/core/src/persistence.ts:302-315 | How a request with a new key is decided, by the rows and guards in the order of the checks. |
| HistoryActions.RetrySourceIff | packages/core/src/persistence.ts:303-303 | A retry replays exactly the deployment it names. |
| HistoryActions.RedeploySourceByFields | packages/core/src/persistence.ts:303-303 | A redeploy replays the newest deployment of the service that failed or is READY. |
| HistoryActions.RetryOfferHonouredIff | packages/core/src/persistence.ts:302-315 | An offered retry, requested on the same table with a new key, is accepted exactly when the service and the project are there and not being deleted and the quota allows it; otherwise it is refused for the first of these. |
| HistoryActions.RedeployOfferHonouredIff | packages/core/src/persistence.ts:302-315 | An offered redeploy is accepted exactly when those guards allow it and the operation picks the source of the offer, that is, when the newest deployment with an eligible status is itself replayable. |
| HistoryActions.RedeployOfferRefused | packages/core/src/deployment-history.ts:153-154 | An older READY deployment with a snapshot and a newer FAILED one without: redeploy is offered and refused. |
| HistoryActions.RetryOfferRefused | packages/core/src/persistence.ts:306-306 | A FAILED deployment of a service that is being deleted: retry is offered and refused. |
| OperationRuns.OperationStore.CreateDeploymentOperation | packages/core/src/persistence.ts:292-315 | The look-ups and checks of a request, one by one, give the specified answer: from its key's deployment, or decided anew; only an accepted new one stores a deployment and its job. |
| OperationRuns.OperationStore.HasActive | packages/core/src/persistence.ts:305-305 | The loop over all deployments finds an active one exactly when one of the service's is. |
| OperationRuns.OperationStore.CreateDeployment | packages/core/src/store.ts:823-855 | Another route stores its deployment under the stable id of its parts, in the place of the one that has the id, if any. |
| OperationRuns.OperationStore.UpdateDeployment | packages/core/src/store.ts:868-881 | An update is made exactly when the stored deployment has the same lineage. |
| OperationRuns.KeyAnsweredForever | packages/core/src/persistence.ts:295-301 | After a request created a deployment, and after any further requests, updates, creations and jobs, the same request gets that deployment back, another one with the key is refused, and neither stores anything. |
| OperationRuns.UsedKeyAnswer | packages/core/src/persistence.ts:295-301 | A used key is answered with its deployment if its job recorded the same kind, source and version, and as a conflict otherwise. |
| OperationRuns.NewKeyAnswer | packages/core/src/persistence.ts:294-315 | A key that no deployment of the service has is answered with the decision. |
| OperationRuns.RunGrows | packages/core/src/store.ts:855-881 | In every run each deployment id keeps its place, and jobs are only added. |
| OperationRuns.LineageLastsIff | packages/core/src/store.ts:823-881 | The lineage stored under an id lasts through a run exactly when no creation on the way stores another one under the id. |
| OperationRuns.SameCommitReplaces | packages/core/src/store.ts:828-855 | Two deployments of one commit of a service get one id, and the second takes the place of the first. |
| OperationRuns.LongServiceSharesId | packages/core/src/ids.ts:1-14 | Of a service whose id has a slug of 59 characters or more, all deployments get one id. |
| OperationRuns.StableIdUnmarked | packages/core/src/ids.ts:11-14 | No stable id holds an underscore, so none equals the random id of a request. |
| OperationRuns.KeyedRowsLast | packages/core/src/deployment-operations.ts:121-124 | In every run the deployments that requests created keep their keys and lineages. |
| OperationRuns.RunKeeps | packages/core/src/persistence.ts:292-315 | In every run, with creations under new and used ids, a service has at most one deployment per key, and a used key never lacks its job. |
| OperationRuns.OneActiveIff | packages/core/src/persistence.ts:305-305 | No service ever has two active deployments in a run exactly when no update and no creation makes one active beside another; requests never do. |
| OperationRuns.FailedCanDouble | packages/core/src/lifecycle-v1.json:59-66 | Every failed deployment that can be replayed, with no guard in the way, has a run of two steps after which two deployments are active: a retry, and its own return to building. |
| OperationRuns.RevivedBesideRetry | packages/core/src/lifecycle-v1.json:59-66 | A failed deployment that was retried goes back to building, and two are active. |
| OperationRuns.RetryStored | packages/core/src/persistence.ts:310-313 | Every accepted retry of it is stored beside it, queued. |
| OperationRuns.RetryAccepted | packages/core/src/persistence.ts:302-315 | Such a retry is accepted for every failed deployment that can be replayed, unless a guard stands in the way. |
| DomainRouter.NormalizedIsRoutePart | packages/core/src/domain-router.ts:139-145 | Every text normalizes to a non-empty label text with alphanumeric ends. |
| DomainRouter.SquashJoins | packages/core/src/domain-router.ts:143-143 | Between label texts every run of other characters becomes one hyphen. |
| DomainRouter.BoundedIsLabel | packages/core/src/domain-router.ts:147-154 | A bounded label is a valid label within every positive limit. |
| DomainRouter.BoundingIdempotent | packages/core/src/domain-router.ts:147-154 | Bounding a bounded label changes nothing, for every limit and identity. |
| DomainRouter.BoundingSeparates | packages/core/src/domain-router.ts:150-153 | Shortened labels are equal only when the hashes of their stable identities agree in twelve characters. |
| DomainRouter.NothingLeft | packages/core/src/domain-router.ts:139-145 | A text without letters and digits becomes the part item. |
| DomainRouter.LabelSpelled | packages/core/src/domain-router.ts:32-57 | A generated label that fits is written out in full: zone, organization, project and the service unless it is web. |
| DomainRouter.LongLabelSpelled | packages/core/src/domain-router.ts:147-154 | A longer one is the front that leaves room, without trailing hyphens, and twelve characters of the hash of the stable identity or of the text. |
| DomainRouter.CustomDomainVerbatim | packages/core/src/domain-router.ts:32-39 | A custom domain is used as it is. |
| DomainRouter.RuntimeByFields | packages/core/src/preview-deployments.ts:6-35 | Which names, key and base domain a deployed preview takes from its records, and in which order it looks for them. |
| DomainRouter.BoundedAgreeIff | packages/core/src/domain-router.ts:147-154 | Where the hash tells two texts apart, their bounded labels are equal only for equal texts, short or long. |
| DomainRouter.ZonedLabelKeepsPrefix | packages/core/src/domain-router.ts:121-123 | Truncation and hashing never lose the zone prefix. |
| DomainRouter.GeneratedLabelShape | packages/core/src/domain-router.ts:32-57 | Every generated label is a DNS label that begins with its zone and fits 63 characters; a preview label fits when its key has at most 13, as pr- and ten digits. |
| DomainRouter.GeneratedNeverRentable | packages/core/src/domain-router.ts:32-57 | No generated host name is rentable, under any base domain and any rental configuration with the reserved tables. |
| DomainRouter.PlatformNeverRentable | packages/core/src/domain-router.ts:75-81 | Neither is a platform host name. |
| DomainRouter.HostsAgreeIff | packages/core/src/domain-router.ts:32-57 | Two generated host names are equal exactly when the routes name the same place: all normalized parts for services and previews, organization and hyphen-joined rest for consoles. |
| DomainRouter.ConsolesCollide | packages/core/src/domain-router.ts:41-53 | The console of a service and the console of a project named after project and service share a host name. |
| DomainRouter.DoubledHyphensCollide | packages/core/src/domain-router.ts:129-137 | Without the condition on doubled hyphens, services of two projects collide. |
| DomainRouter.SlugsArePlain | packages/core/src/ids.ts:1-9 | Every slug meets that condition. |
| DomainRouter.PatternMeetsRuntime | packages/core/src/preview-deployments.ts:16-35 | Where planned and deployed identity are one and so are the base domains, the preview pattern with any number of up to ten digits filled in is the runtime host name. |
| DomainRouter.RuntimeLabel | packages/core/src/preview-deployments.ts:6-9 | The runtime label of such a preview is a DNS label of at most 63 characters. |
| DomainRouter.PatternMeetsRuntimeIff | packages/core/src/domain-router.ts:108-119 | And only there, whatever records and base domains the two sides are given and however long the identities, unless the hash fails to tell them apart. |
| DomainRouter.IdentityDecidesUnderOneBase | packages/core/src/domain-router.ts:108-119 | Under one base domain the identities alone decide. |
| DomainRouter.OwnBaseMissesPattern | packages/core/src/preview-deployments.ts:34-35 | A service with a base domain of its own, other than its plan's, never meets its pattern, whatever the records. |
| DomainRouter.SlugMustMatchName | packages/core/src/preview-deployments.ts:66-74 | With complete records: the base domains must be one, and a public service must have a slug that normalizes like its name, any other service the slug web. |
| DomainRouter.SlugMissesPattern | packages/core/src/preview-deployments.ts:66-72 | A service named my--svc with slug my-svc gets a host name its pattern does not name. |
| DomainRouter.IdsMissPattern | packages/core/src/preview-lineage.ts:41-47 | Where the runtime gets ids only, no public service meets its pattern whose organization id differs from the organization's slug. |
| EventStreams.FramesAppend | packages/api-client/src/operations.ts:75-77 | Splitting a stream in two and carrying the rest over yields the frames of the whole. |
| EventStreams.Dispatch | packages/api-client/src/operations.ts:78-87 | The loop over completed frames delivers what the frame specification says and stops at the first frame that stops it. |
| EventStreams.ReadStream | packages/api-client/src/operations.ts:67-89 | What the reader delivers depends only on the concatenated text, not on the chunks. |
| EventStreams.SendSnapshot | packages/core/src/api.ts:1163-1176 | The pieces written are one snapshot event, its retry, id, event and data lines written out, and the response is ended. |
| EventStreams.SnapshotRoundTrip | packages/core/src/api.ts:1171-1174 | A written snapshot is read as exactly one event with its payload and event id, with nothing left over. |
| EventStreams.ReceiveSnapshot | packages/api-client/src/operations.ts:67-89 | However the text of a snapshot is cut into chunks, the reading loop delivers exactly its payload and event id. |
| EventStreams.DeliveredIdsHaveNoBreak | packages/api-client/src/operations.ts:84-86 | No delivered event id holds a line feed, whatever was sent. |
| EventStreams.EventIdSurvivesIff | packages/core/src/api.ts:1172-1172 | An event id reaches the client unchanged exactly when it is one line. |
| EventStreams.MultiLineDelivered | packages/api-client/src/operations.ts:75-82 | The text of an event whose payload is sent as one data line per line is delivered as the whole payload. |
| SafePayload.CopyMembers | apps/dashboard/lib/request-security.js:292-302 | The inner loop copies exactly the entries that are not secret and stacks the containers among them. |
| SafePayload.FinalKept | apps/dashboard/lib/request-security.js:290-303 | One round of the outer loop changes the eventual value of no output object. |
| SafePayload.BrowserSafePayload | apps/dashboard/lib/request-security.js:286-305 | The work-stack copy terminates and equals the recursive strip: no path of the output passes a key that spells, in any letter case and punctuation, one of the six token names, and every path that passes none has its value. |
| SafePayload.StrippedAt | apps/dashboard/lib/request-security.js:286-305 | Exactly the values below a secret key are gone; at every other path the stripped value is kept. |
| SafePayload.HiddenIff | apps/dashboard/lib/request-security.js:6-13 | A key is secret exactly when its letters and digits spell token, access, refresh, session or id token, or jwt. |
| SafePayload.HiddenNeverReached | apps/dashboard/lib/request-security.js:286-305 | Nothing of the stripped value lies below such a key, and at every other path the value is the stripped original. |
| SafePayload.StripIdempotent | apps/dashboard/lib/request-security.js:286-305 | Stripping twice is stripping once. |
| SqlScanner.LexLossless | packages/core/src/db-console.ts:57-96 | The tokens of a query concatenate to the query. |
| SqlScanner.LineEnds | packages/core/src/db-console.ts:73-77 | A line comment ends at its only line feed or with the query. |
| SqlScanner.BlockEnds | packages/core/src/db-console.ts:78-84 | A block comment ends at its first closing mark or with the query. |
| SqlScanner.LiteralEnds | packages/core/src/db-console.ts:64-72 | A literal ends at a closing quote that is not doubled, a bracket at its first, or with the query. |
| SqlScanner.ScanLiteral | packages/core/src/db-console.ts:64-72 | One round inside a literal keeps output and rest equal to the blanked query up to white space. |
| SqlScanner.ScanCode | packages/core/src/db-console.ts:73-95 | So does one round outside of literals, with its index jumps. |
| SqlScanner.NormalizeForPolicy | packages/core/src/db-console.ts:57-101 | The scanner terminates and yields the lexer's token stream with literals and comments blanked, in both forms. |
| SqlScanner.FormsByWords | packages/core/src/db-console.ts:97-100 | The spaced form is the words of the blanked query with one space between them, the compact form with none, upper-cased. |
| SqlScanner.QuotedBlanked | packages/core/src/db-console.ts:64-72 | What stands in single, double or back quotes or in brackets becomes one space. |
| SqlScanner.CommentBlanked | packages/core/src/db-console.ts:73-84 | So does a line comment with its line feed and a block comment with its marks. |
| SqlScanner.CodeKept | packages/core/src/db-console.ts:95-95 | Every other character stays. |
| SqlScanner.SpacedHasNoOpener | packages/core/src/db-console.ts:98-98 | The spaced form has no quote, bracket or comment opener. |
| SqlScanner.SpacedFixedPoint | packages/core/src/db-console.ts:98-98 | Normalizing the spaced form again changes nothing. |
| SqlScanner.LexApartIff | packages/core/src/db-console.ts:57-96 | The tokens of a text are those of its two parts exactly when the first part ends with a whole token and the second does not join it. |
| SqlScanner.GapBetweenText | packages/core/src/db-console.ts:57-101 | A literal or comment that joins neither side, closed or at the end of the query, is blanked to one space and both sides by themselves. |
| SqlScanner.OnlyCodeMatters | packages/core/src/db-console.ts:57-101 | Any such literal or comment put in the place of another leaves both forms as they were. |
| ShellCommands.QuoteReads | packages/core/src/command-runner.ts:31-35 | A quoted text is read by a POSIX shell as one word, the text itself, whatever follows. |
| ShellCommands.PrintedCommandReadsBack | packages/core/src/command-runner.ts:26-29 | The printed command is read as its executable and arguments, for every vector of strings. |
| ShellCommands.PrintingInjective | packages/core/src/command-runner.ts:26-29 | Different commands print differently. |
| ShellCommands.PrintedPlainIff | packages/core/src/command-runner.ts:31-35 | Exactly the words of letters, digits and the ten listed marks are printed as they are; all others in single quotes. |
| ShellCommands.RedactedPrintsAlone | packages/core/src/command-runner.ts:26-27 | A redacted text is printed alone, whatever the command. |
| Authorization.Subject.RequireAction | packages/core/src/auth.ts:118-130 | The action is remembered, and judged by the resolved role or by any role. |
| Authorization.Subject.RequireScope | packages/core/src/auth.ts:132-154 | The role becomes the organization's role and must permit the remembered action; all refusals and their partial effects. |
| Authorization.RoleForIff | packages/core/src/auth.ts:169-176 | The role in an organization: the entry for it, or the plain role where there are no entries and it is the only organization named. |
| Authorization.ScopeByFields | packages/core/src/auth.ts:132-154 | For a subject that is not global, a check of an organization passes exactly when the subject names it and has a role there that permits the remembered action, and names the project if one is asked for; and it leaves that role. |
| Authorization.GlobalPassesScope | packages/core/src/auth.ts:133-133 | A subject that is global, by itself or its claims, or with authentication disabled, passes every scope check unchanged. |
| Authorization.ActionByFields | packages/core/src/auth.ts:118-130 | An action check passes exactly when the resolved role permits it or, without one, any role does. |
| Authorization.Subject.AuthorizeSubject | packages/core/src/auth.ts:161-167 | The two checks in the order the scope decides. |
| Authorization.Subject.AuthorizeProjectRoute | packages/core/src/api.ts:1005-1067 | The action check followed by the project's access check. |
| Authorization.OrdersAgree | packages/core/src/auth.ts:118-176 | For a fresh subject both orders accept exactly the global subjects with a permitting role and the members whose role there permits, and leave the same state. |
| Authorization.OrdersAgreeIff | packages/core/src/auth.ts:145-148 | The orders differ exactly on the empty action, for a member whose role there does not permit it while another does. |
| Authorization.EmptyActionSplitsOrders | packages/core/src/auth.ts:145-148 | A viewer of one organization who owns another shows the difference. |
| Authorization.ProjectRouteDecides | packages/core/src/api.ts:1056-1067 | A project route accepts exactly the entitled subjects not confined to other projects. |
| Authorization.EntitledByFields | packages/core/src/auth.ts:118-176 | Who is entitled, on the fields of the grants. |
| Authorization.UnconfinedByFields | packages/core/src/api.ts:1056-1067 | Who is not confined to other projects, on the fields of the grants. |
| Authorization.PassedChecksAuthorize | packages/core/src/auth.ts:118-176 | Whatever sequence of checks passes, the last named action is permitted by the subject's own role in the last named organization. |

## Left out

- Characters are Unicode scalar values, not UTF-16 code units; lengths of texts outside the basic plane differ.
- Lower-casing folds ASCII letters where the source lower-cases host names, digests, roles and keys; where other letters matter the case mapping is a function value.
- URL parsing and rendering, `localDestination`, `isIP` and internationalized host names are function values; their own rules are not modelled.
- `domainRentalConfig` and its environment variables; the configuration is a value with a valid base domain.
- Resolving while a queued job is half done; the in-memory resolver is modelled between jobs.
- RentalJobs.StoredTargetsServe: assumes of the URL parser that the rendering of a text that passes the screening passes it too and parses back to the same URL.
- RentalJobs.HostnamesStaySafe: assumes that generated ids never repeat and that a registered custom domain is in the form its normalizer produces.
- HistoryPages.StableRowsAppearOnce: assumes one row per id and readable creation times in every table that is read.
- PostgresRentals.InsertCommitsWithinQuota: assumes no request is under way for a user id that does not exist yet, because locking a missing row locks nothing.
- Transaction timeouts, deadlocks and retries of `serializableTransactionWithRetry` are abortions of a transaction and new transactions.
- The lifecycle of a custom domain after its registration: challenges, verification, certificates.
- Legacy spellings of deployment statuses; statuses are typed.
- The PostgreSQL twin of `createDeploymentOperation` also refuses some sources of type preview through `assertPreviewRetry` (`persistence.ts` lines 1611-1614) before it builds the successor, and advances their lineage; that is not modelled.
- How a quota is counted; it is a function value of the user and the deployment type.
- Deleting a service with its deployments and keys; a run of operations deletes nothing.
- OperationRuns.RunKeeps: assumes that the random ids of requests are new, and that other routes name deployments by stable ids and set no idempotency key, as `security.ts` lines 84-98 and 425-433 leave no id and no key in their input.
- OperationRuns.OperationStore.UpdateDeployment: the store itself refuses updates of the six lineage fields only (`store.ts` line 871). That an update changes neither id nor service is up to its callers: the status route passes only the fields of `security.ts` lines 100-115, and the deployment workflow sends neither. It refuses such an update even with the present value; here that update is made.
- RentalProgress.DeadlockIff: host names whose lock keys have the same hash are not modelled, nor are the rows that other parts of the control plane lock; changing an account is one step.
- RentalProgress.SeparateRunsCanEnd: goes one way. Where a user has both open, a knot may still be ahead or not, depending on checks not made yet.
- PostgresRentals.WriteAdmitted: a host name that another open transaction is giving up, by an update or a removal not yet committed, counts as taken; PostgreSQL waits on the unique index there and then decides.
- HistoryActions.EligibleSource orders by normalized time stamps; the in-memory store compares the stored texts, which agree for the time stamps it writes itself.
- DomainClaims: the PostgreSQL store refuses a used record id by its primary key, as a host name conflict (`persistence.ts` lines 1528-1540), where the in-memory store overwrites.
- DomainClaims.AlikeClaimsCollide: assumes that lower-casing leaves the two host names alone.
- DomainRouter.PatternMeetsRuntimeIff: assumes that the twelve-character hash prefix tells the two identities apart where one is longer than 39 characters.
- DomainRouter.HostsAgreeIff: assumes the same of labels over the limit, and parts without doubled hyphens, as slugs have.
- Cluster-internal host names, Kubernetes namespaces and workload names of the router.
- UTF-8 decoding of stream chunks; chunks are text. JSON text is assumed to be one line, as the writer's serializer produces it.
- SafePayload.BrowserSafePayload: output objects are cells addressed by number instead of heap objects; keys of one object are distinct in the source, so defining a member is appending it.
- Sparse arrays, getters and other non-JSON payloads of the browser projection.
- The keyword policy applied to the normalized SQL, and the PostgreSQL guard.
- SqlScanner.SpacedHasNoOpener: upper-casing is character by character and leaves the scanner's own characters alone, as Unicode's unconditional mappings do.
- Reserved words and assignments in shell commands; the reader recognizes words only. Redacted commands print their redaction.
- The permission table of roles is a function value; token parsing, session checks and API keys are not modelled.
- Build planning, provisioning, the dashboard, billing and the remaining persistence are not modelled.
