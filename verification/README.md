# Dynamic Teradata credentials, verified

A Dafny model of the OpenBao secrets engine that hands out database users on lease. It follows three
things from end to end.

**The life of a credential.** A credential is a record under `creds/<username>`, a database user, and
perhaps an entry in a cache. `Vault` says what each handler does to records and users, with every call
into storage or the database free to fail. `Lifecycle`, `Revocation`, `Renewals` and `Leftovers` prove what
holds over all runs of the handlers: quota, keys, lifetime, no resurrection, exact accounting of the bulk
handlers, and which failures let users and records part ways. `Outcomes` and `Removals` say of each handler
which check it is refused for and exactly what it leaves, field by field. `CredentialCaching` and `Backends`
are the handlers as they run, with a cache of heap objects that renewals write in place; each method is
proved to do to store and users what `Vault` says. `Service` carries that to whole scripts of requests: the cached
engine behaves like the cache-less one, keeps what it keeps, and its cache equals its store while every
renewal write reaches storage.

**Caches and concurrency.** `QueryCaching` is the TTL and LRU query cache with its accounting. `LoadFill`,
`Limiters` and `RegistryShutdown` are state machines over the single steps of concurrent readers and
writers, of callers that want a limiter, and of background jobs against Shutdown. `Degradation` has the
degradation switches and the decision whether to go on.

**Text and retries.** `ConnectionString` is the parsing automaton with the builder and the appenders,
`Statements` the splitter of SQL scripts, `Substitution` the replacement loop of the revocation templates,
`Retry`, `Courses` and `Execution` the nested loops that replay a script, `Backoff` the waits between them, and
`Passwords` the step that forces the four kinds of characters into a password.

Where the code does not meet the obvious property, the model keeps the code, and a lemma says when the
property holds, or gives an input on which it fails: renewals ignore the maximum lifetime, and batches give
that of another role (`Lifecycle.RenewalKeepsCapIff`, `Renewals.BatchKeepsCapIff`, `RenewalOutlivesCap`,
`CrossRoleRenewalOutlivesCap`), a renewal whose write fails leaves the cache ahead of storage
(`RenewCredential`, `RenewTurn`, `CoherenceAfterTurn`), failures in the middle of a handler leave users
without records and records without users (exactly when: `StepKeepsTrackIff`, `StepKeepsUsersIff`), the
credential cache can outgrow its size (`CredentialCache.Set`, `OverfullCache`), a region named `default`
shares the unnamed region's cache key (`KeysCollideIff`, `AloneIff`, `DefaultRegionAnswersForUnnamed`), an
invalidation that passes a reader with an outdated value leaves a stale line (`StepAgreesIff`,
`DisturbedGoesStale`), a restore or a migrating role read does not invalidate at all (`OverwriteAgreesIff`, `HandlersAgreeIff`), a base string that ends in
`;` makes the next key start with `;` (`AppendedIsReadIff`, `SemicolonBaseMisreads`), the replacement loop
ends only on ASCII (`SettlesIff`), a password can lose the only member of a kind
(`EnsuredMeetsRequirementsIff`, `OnlyDigitIsOverwritten`), and Shutdown waits for jobs that set-up never
starts (`MayReturnIff`, `AsSetUpShutdownNeverReturns`).

`dafny verify dfyconfig.toml` checks the project.

## Model

| member | source | states |
|---|---|---|
| Outcomes.CreationIs | plugin/path_creds.go:115-349 | which check or call a creation is refused for, in order, and exactly what it leaves: a lease that ends the default lifetime from now under the drawn name, or no record; and the user, unless a clean-up took it back |
| Outcomes.RoundsAre | plugin/path_creds.go:464-533 | the rounds of a batch up to the first failure are done, that failure is the answer, and under each name drawn stands what its last round made |
| Outcomes.BatchIs | plugin/path_creds.go:351-568 | a batch is refused for the first check that fails; otherwise its rounds are as many as asked for, raised to one and cut to a hundred and to what the quota leaves |
| Outcomes.BatchCreatesWhatIsAskedFor | plugin/path_creds.go:351-383 | with successes only and fresh names the role then holds exactly so many credentials more |
| Outcomes.RenewalIs | plugin/path_renew_creds.go:37-138 | which check or call a renewal is refused for, in order; a success sets the two times of one record, an end the default lifetime of its role from now, and nothing else |
| Outcomes.BatchRenewalIs | plugin/path_renew_batch.go:56-226 | a batch is refused for the first check that fails, or answers the names given, or those of the role, up to the limit, each for the first of its calls that fails; each record is as its last successful turn made it |
| Outcomes.SelectIsTheFirst | plugin/path_renew_batch.go:228-251 | a selection is the first that match, in the order of the listing |
| Outcomes.FindLeaseIsTheFirst | plugin/path_creds.go:857-875 | a lease finds the first listed record that carries it, and none exactly if none does |
| Outcomes.ExtensionIs | plugin/path_extend_lease.go:37-112 | which check an extension is refused for, in order; a success ends the lease the lifetime wanted from now, or what the maximum leaves if that is less |
| Removals.RevocationIs | plugin/path_revoke_creds.go:34-102 | which check or call a revocation is refused for, in order; record and user go, or the user alone when the record cannot be deleted, or nothing |
| Removals.BulkRevocationIs | plugin/path_bulk_revoke.go:50-178 | each given name is answered for the first check or call of its turn that fails, and exactly the names done lose their records, those and the ones whose delete failed their users |
| Removals.RoleRevocationIs | plugin/path_bulk_revoke.go:201-327 | the same for each readable record of a role, in the order of the listing |
| Removals.GeneralRevocationIs | plugin/path_bulk_revoke.go:343-477 | the same for each readable record |
| Removals.CleanupIs | plugin/path_creds.go:898-927 | the cleanup answers a count exactly if configuration and listing are there: the number of records it deleted, which are the expired ones whose read, drop and delete succeed |
| Removals.LeaseRevocationIs | plugin/backend.go:428-534 | a lease of another shape is done at once; otherwise the first failing check is the answer, or the user named in the lease goes and no record |
| Vault.LeasePartsOfLeaseId | plugin/backend.go:442-449 | the role and username read out of a lease are those it was made from, when neither has a slash |
| Text.JoinSplit | plugin/backend.go:441 | the pieces of a split, joined again, are the text |
| Vault.SelectPicks | plugin/path_renew_batch.go:228-251 | a listing by role picks each stored, readable record of the role once, up to the limit, and leaves none out short of the limit |
| Lifecycle.OnlyCreationAdds | plugin/path_renew_creds.go:117-126 | no handler but the two creations brings a record into the store or changes the identity of one |
| Lifecycle.RunKeepsKeys | plugin/path_creds.go:301-320 | in every run each record's Username and LeaseID match the key it is stored under |
| Lifecycle.BatchAddsAtMost | plugin/path_creds.go:464-523 | a batch, however it ends, adds at most one credential a round, and none to another role |
| Lifecycle.RunKeepsQuota | plugin/path_creds.go:141-153 | in every run, with every outside answer free, a role with a quota never holds more than the quota, or than it held at the start |
| Lifecycle.NoResurrection | plugin/path_renew_batch.go:193-202 | a deleted credential comes back in no run that does not draw its name again |
| Lifecycle.RunKeepsCap | plugin/path_extend_lease.go:61-94 | in every run whose renewals, single or in batches, fit, a lease ends by CreatedAt + MaxTTL plus the time an extension lets pass between capping and adding |
| Lifecycle.RenewKeepsCap | plugin/path_renew_batch.go:136-202 | the loop of a batch keeps a role under its maximum if each lifetime it may give fits |
| Lifecycle.ExtensionStaysInBounds | plugin/path_extend_lease.go:61-99 | an extension succeeds only on a live lease short of its maximum, ends it after now and by the maximum, and changes nothing but its two times |
| Lifecycle.RenewalKeepsCapIff | plugin/path_renew_creds.go:117-123 | a successful renewal keeps a role under its maximum exactly if the new default lifetime fits under it |
| Lifecycle.RenewalOutlivesCap | plugin/path_renew_creds.go:117-123 | a concrete renewal that outlives the role's maximum |
| Lifecycle.CrossRoleRenewalOutlivesCap | plugin/path_renew_batch.go:136-194 | a concrete batch for another role that outlives the maximum of a credential whose own default lifetime would fit |
| Renewals.BatchKeepsCapIff | plugin/path_renew_batch.go:136-202 | a batch keeps a role under its maximum exactly if it is refused, or the last turn that renews each credential of the role gives it, with the lifetime of the role the batch names, a time that fits |
| Renewals.LastTakenIsReported | plugin/path_renew_batch.go:143-202 | the last renewal of a stored credential that a batch reports is that of the last of its turns in which every outside answer was a success |
| Lifecycle.LeaseNamesOneCredential | plugin/path_creds.go:857-875 | with slash-free names a lease finds its one credential whatever order storage lists in |
| Lifecycle.CreateLeavesUserBehindIff | plugin/path_creds.go:270-320 | exactly which failures leave a database user without a record |
| Lifecycle.LeaseRevokeKeepsRecord | plugin/backend.go:428-534 | a lease revocation drops the user and keeps the record, which goes on counting against the quota |
| Leftovers.StepKeepsTrackIff | plugin/path_creds.go:270-320 | of all requests only a creation can leave a user without a record: exactly if it is not refused and a round it reaches fails to store, or to run its statement and then to drop the user, under a name without a record |
| Leftovers.StepKeepsUsersIff | plugin/path_bulk_revoke.go:75-177 | for each of the thirteen requests exactly when it leaves a record without its user, by its inputs alone |
| Leftovers.BatchKeepsTrackIff | plugin/path_creds.go:464-533 | a batch creation leaves no user without a record exactly if no round it reaches loses one |
| Leftovers.BatchLosesTrackIff | plugin/path_creds.go:464-533 | the last round reached is the only one that can: some round does exactly if that one does |
| Leftovers.BatchKeepsUsersIff | plugin/path_creds.go:464-533 | a batch creation takes no record its user exactly if no round it reaches cleans up under a name that has a record |
| Leftovers.BatchLosesUserIff | plugin/path_creds.go:464-533 | the same for clean-ups: some round does exactly if the last one reached does |
| Leftovers.RevokeKeepsUsersIff | plugin/path_bulk_revoke.go:75-177 | a revocation loop leaves no record without its user exactly if each stored name that some turn drops some turn also deletes, repeated names included |
| Leftovers.CleanKeepsUsersIff | plugin/path_creds.go:898-927 | the expiry cleanup leaves no record without its user exactly if each name it drops it also deletes |
| Leftovers.RunKeepsTrack | plugin/path_creds.go:270-320 | every database user has a record throughout a run exactly if no step of the run loses track of one |
| Leftovers.RunKeepsUsers | plugin/path_bulk_revoke.go:100-170 | every record has its user throughout a run exactly if no step of the run takes one away |
| Leftovers.DropWithoutDeleteIff | plugin/path_revoke_creds.go:85-95 | a revocation leaves a record without a user exactly if the user is dropped and the delete fails |
| Renewals.RenewBatchAnswers | plugin/path_renew_batch.go:138-205 | one result for each username, in order, each counted as success or failure |
| Renewals.BatchRenewsAsReported | plugin/path_renew_batch.go:193-202 | after a batch every record is as it was, or as its last reported renewal made it; no record or user comes or goes |
| Renewals.RenewalsAreReported | plugin/path_renew_batch.go:143-202 | a username is reported renewed exactly if it was stored and every outside answer for it was a success |
| Revocation.BulkRevokeAnswers | plugin/path_bulk_revoke.go:75-177 | one result for each requested username, in order |
| Revocation.BulkRevokeAddsUp | plugin/path_bulk_revoke.go:75-177 | revoked and failed add up to the results; the store loses exactly the reported names and changes no other record |
| Revocation.RepeatedUsernameRevokedOnce | plugin/path_bulk_revoke.go:75-177 | a username asked for twice is reported revoked at most once |
| Revocation.BulkRevokeReaches | plugin/path_bulk_revoke.go:75-177 | with every outside answer a success each requested username is gone |
| Revocation.RevokeByRoleTheorem | plugin/path_bulk_revoke.go:201-327 | revoking a role touches no other role, accounts for what it removes, and with every answer a success leaves only unreadable records |
| Revocation.RevokeEveryoneTheorem | plugin/path_bulk_revoke.go:343-477 | revoking everyone accounts for what it removes, and with every answer a success leaves only unreadable records |
| Revocation.CleanupAddsUp | plugin/path_creds.go:898-927 | the answered count is the number of records removed; each was expired, and no other changed |
| Revocation.CleanupIsComplete | plugin/path_creds.go:898-927 | with every answer a success exactly the expired records go |
| CredentialCaching.CredentialCache.Get | plugin/credential_cache.go:40-60 | a live entry gives its very object and counts a hit; anything else counts a miss and is dropped |
| CredentialCaching.CredentialCache.Set | plugin/credential_cache.go:62-76 | the new entry is the given object and no other changes, but that the oldest goes from a full cache when older than the ttl; a cache within its size stays so exactly if the name was cached, there was room, or it was full with an entry older than the ttl |
| CredentialCaching.OverfullCache | plugin/credential_cache.go:66-75 | for every size a cache with more entries than its size |
| CredentialCaching.CredentialCache.EvictOldest | plugin/credential_cache.go:114-130 | something is evicted exactly if some entry is older than the ttl, and then one than which none is older |
| CredentialCaching.CredentialCache.CleanupExpired | plugin/credential_cache.go:150-161 | exactly the expired entries go, and each is counted |
| Backends.Backend.IntactIsCoherent | plugin/path_creds.go:81-113 | while no renewal write was lost each cached credential is the stored record |
| Backends.Backend.NeverShared | plugin/path_creds.go:101-106 | two usernames never share a cached object |
| Backends.Backend.CacheCredential | plugin/path_creds.go:101-106 | the object itself is cached, and no other cached credential changes |
| Backends.Backend.GetCachedCredential | plugin/path_creds.go:81-99 | a live entry gives the very object cached before; otherwise a record is found exactly if one is stored, and the new object is cached and returned |
| Backends.Backend.CountCredentialsByRole | plugin/path_creds.go:837-855 | the count over a listing is the number of the role's records |
| Backends.Backend.CreateUser | plugin/path_creds.go:260-320 | user, statement or roll-back, record and cache entry: the account of `Vault.CreateOne`, the new record cached and in agreement with the store |
| Backends.Backend.CreateCredential | plugin/path_creds.go:115-349 | the creation handler does to store and users what the cache-less account says, keeps the cache invariant, and puts at most its own entry into the cache |
| Backends.Backend.CreateCredentialBatch | plugin/path_creds.go:351-568 | the batch handler, its count clamped and cut to the quota, against its account |
| Backends.Backend.CreateEach | plugin/path_creds.go:464-533 | the loop of a batch, which ends at its first failure and keeps what was created before it |
| Backends.Backend.RenewCredential | plugin/path_renew_creds.go:37-138 | writes the shared object before the store; a cache that was the store stays so exactly unless the write is lost and would have changed the record |
| Backends.Backend.StoreRenewal | plugin/path_renew_creds.go:117-126 | object, cache entry and store after the in-place renewal, with and without a successful write |
| Backends.Backend.ListSelected | plugin/path_bulk_revoke.go:229-240 | the loop over a listing picks what the selection picks |
| Backends.Backend.ChooseTargets | plugin/path_renew_batch.go:87-107 | the usernames a batch renewal works on: those given or those of the role, up to the limit |
| Backends.Backend.RenewTurn | plugin/path_renew_batch.go:143-202 | one username of a batch: what the cached record then is, and the same exact condition for a cache that was the store |
| Backends.Backend.RenewCredentialBatch | plugin/path_renew_batch.go:56-226 | store, users, results and both counters as in the cache-less account, over the turns as asked for but for reads of names cached or loaded before; a cache that was the store is then ahead of it only in records whose renewal was reported lost, and is what that renewal wrote |
| Backends.CoherenceAfterTurn | plugin/path_renew_creds.go:117-126 | after a renewal cached and stored records agree exactly unless a changed record was written and not stored |
| Backends.Backend.FindByLease | plugin/path_creds.go:857-875 | the first listed record with the lease |
| Backends.Backend.CapTTL | plugin/path_extend_lease.go:61-91 | the lifetime granted is the requested or default one cut to what the maximum leaves, or none |
| Backends.Backend.ExtendLease | plugin/path_extend_lease.go:37-112 | a decoded copy is extended, so that a failed write leaves store and cache in agreement |
| Backends.Backend.DropUser | plugin/path_revoke_creds.go:55-95 | user, record and cache entry go together, and no other entry; a failed DROP USER changes nothing, a failed delete leaves record and entry |
| Backends.Backend.RevokeCredential | plugin/path_revoke_creds.go:34-102 | the revocation handler against its cache-less account |
| Backends.Backend.BulkRevokeCredentials | plugin/path_bulk_revoke.go:50-178 | the loop over given names against its account, with both counters; a failed read is spared only for a name that was cached, or loaded earlier in the call |
| Backends.Backend.RevokeCredentialsByRole | plugin/path_bulk_revoke.go:201-327 | the loop over a role's credentials against its account, with both counters; exactly the entries of deleted records leave the cache |
| Backends.Backend.RevokeAllCredentials | plugin/path_bulk_revoke.go:343-477 | the loop over all credentials against its account, with both counters; a failed role read counts exactly unless that role was read earlier in the call |
| Backends.Backend.CleanupExpiredCredentials | plugin/path_creds.go:898-927 | the cleanup loop against its account, with its count; exactly the entries of deleted records leave the cache |
| Backends.Backend.RevokeLease | plugin/backend.go:428-534 | the framework's lease revocation: the user and the cache entry go, the record stays |
| Backends.Backend.SweepCache | plugin/credential_cache.go:132-161 | the background sweep leaves exactly the live entries, unchanged, still in agreement with the store |
| Backends.Backend.Reload | plugin/path_reload_plugin.go:48-56 | a reload starts over with an empty cache of the given lifetime and size, which agrees with any store |
| Service.Perform | plugin/backend.go:175-205 | any request, served with the cache, does to store and users what the cache-less account of that same request says, over the current listing; which reads the cache spares it is said exactly for single requests and bounded for bulk ones; agreement is kept if its renewal writes succeed |
| Service.Serve | plugin/path_creds.go:81-113 | the requests of a script, one for one, end in the store and users of their cache-less run, keep its quota, keys and deletions, and leave cache equal to store when every renewal write succeeded |
| Service.ServedRunsKeepTheirPromises | plugin/path_creds.go:141-153 | quota, keys and no resurrection hold of any run that serves a script |
| QueryCaching.QueryCache.Get | plugin/query_cache.go:74-93 | a miss, or the last value set under the key, no later than ttl after it was set |
| QueryCaching.QueryCache.Set | plugin/query_cache.go:95-118 | the whole new entry; the size bound holds; a full cache gives up one least recently used entry, and only for a new key |
| QueryCaching.QueryCache.FindLRU | plugin/query_cache.go:178-193 | the key found has the least access time |
| QueryCaching.QueryCache.EvictLRU | plugin/query_cache.go:178-193 | removes one entry of least access time, and counts it; nothing else changes |
| QueryCaching.QueryCache.Delete | plugin/query_cache.go:120-128 | exactly the key goes |
| QueryCaching.QueryCache.DeleteByPrefix | plugin/query_cache.go:130-142 | exactly the keys with the prefix go, each listed once |
| QueryCaching.QueryCache.CleanupExpired | plugin/query_cache.go:218-229 | exactly the expired entries go |
| QueryCaching.QueryCache.Clear | plugin/query_cache.go:152-157 | nothing is left, and no counter changes |
| QueryCaching.Replay | plugin/query_cache.go:74-142 | in every run of a new cache each hit is what an unbounded cache would answer, and so is each miss until that one would first have held too much; hits and misses count the lookups, and without Clear the insertions are what is left plus what was evicted |
| LoadFill.KeysCollideIff | plugin/query_cache.go:233-246 | two subjects share a cache key exactly if they are one subject or the unnamed region and one named `default` |
| LoadFill.EveryRunIsSafe | plugin/query_cache.go:259-332 | in every interleaving each answer was the stored value at an earlier moment, served no later than ttl after its fill |
| LoadFill.AloneIff | plugin/query_cache.go:233-246 | a subject shares its key with nothing stored exactly if the unnamed region and one named `default` were not both stored |
| LoadFill.AnswerIsGenuine | plugin/query_cache.go:259-332 | the same for one reader: if no other subject with its key was ever stored, some past content held that value for the very subject asked for |
| LoadFill.StepAgreesIff | plugin/query_cache.go:360-395 | of all steps two can end the agreement of cache and store: an invalidation, exactly when it passes a reader that holds an outdated value and no other writer is pending on the key, and a write that does not invalidate |
| LoadFill.OverwriteAgreesIff | plugin/path_config_backup.go:151-181 | a write that does not invalidate keeps the agreement exactly if each cached or held value it changes awaits invalidation by another writer |
| LoadFill.UndisturbedRunsAgree | plugin/query_cache.go:360-395 | in runs without such an invalidation or write cached equals stored whenever no writer is midway |
| LoadFill.DisturbedGoesStale | plugin/query_cache.go:284-307 | after such an invalidation the reader's fill leaves a stale line that nobody is to remove |
| LoadFill.ReadAnswers | plugin/query_cache.go:259-332 | a whole read answers with the live line of its key, or else with what is stored, which it then caches |
| LoadFill.WriteLeaves | plugin/query_cache.go:360-395 | a whole write stores its value and nothing else, and takes out the line of its key and no other |
| LoadFill.LinesStay | plugin/query_cache.go:259-332 | of all steps just the invalidation or loss of a key, or a lookup that finds its line too old, take a line out; just a fill of that key replaces it |
| LoadFill.ReaderSteps | plugin/query_cache.go:259-332 | the steps of one reader: a live line is the answer, and otherwise what is stored is loaded and handed on |
| LoadFill.WritersStore | plugin/query_cache.go:360-395 | what the first step of a write leaves stored, and that it leaves the cache alone |
| LoadFill.OthersStay | plugin/query_cache.go:259-332 | a step moves one reader at most, and time only when time passes |
| LoadFill.HandlersAgreeIff | plugin/path_roles.go:218-266 | with handlers one at a time cached equals stored after each of them exactly if none is a write without invalidation, a restore or a migrating role read, that changes a cached value |
| LoadFill.AtomicHandlersAgree | plugin/path_roles.go:218-222 | then what is cached for a subject is what is stored for it, for the unnamed region too, unless a region named `default` is stored beside it |
| LoadFill.DefaultRegionAnswersForUnnamed | plugin/query_cache.go:233-238 | with such a region a read of the unnamed one is answered with the other's configuration |
| LoadFill.DisturbedFillGoesStale | plugin/query_cache.go:284-307 | from any state, a write between load and fill leaves the old value cached and served |
| Limiters.RateLimiter.GetLimiter | plugin/ratelimit.go:51-70 | the key's limiter, made only if there was none; no two keys share one |
| Limiters.RateLimiter.CleanupExpired | plugin/ratelimit.go:95-102 | all limiters are forgotten beyond 1000, none otherwise |
| Limiters.SameLimiterIff | plugin/ratelimit.go:51-70 | in every interleaving two calls hold one limiter exactly if they asked for one key and no reset fell between them |
| Limiters.EntriesStay | plugin/ratelimit.go:95-102 | in every run without a reset an entry is never replaced |
| Limiters.MadeOnce | plugin/ratelimit.go:61-69 | at most one limiter is made for a key between two resets |
| Limiters.EveryCallCanReturn | plugin/ratelimit.go:51-70 | from every reachable state each call can still come to hold a limiter for its key |
| Limiters.HeldIsStored | plugin/ratelimit.go:51-70 | until the next reset the limiter a call got is the one stored for its key |
| RegistryShutdown.RunKeepsInv | storage/db_registry.go:124-180 | the lock and channel invariant holds in every interleaving of the jobs with Shutdown |
| RegistryShutdown.AfterShutdown | storage/db_registry.go:798-819 | when Shutdown has returned and no job was started twice, the map is empty, all jobs have ended, and no step is left |
| RegistryShutdown.SweepIsAlone | storage/db_registry.go:807-818 | while Shutdown sweeps, no job started once is still using a connection |
| RegistryShutdown.OneInside | storage/db_registry.go:289-299 | in every interleaving no two jobs, and no job and Shutdown, are inside one connection |
| RegistryShutdown.LeavesClosed | storage/db_registry.go:807-818 | a connection leaves the map only closed under its lock, or without a database to close |
| RegistryShutdown.NoneIsPassedOver | storage/db_registry.go:276-287 | health checks and cleanup visit each connection they copied before they rest |
| RegistryShutdown.EachCanBeVisited | storage/db_registry.go:276-287 | a tick before Shutdown lets a job visit any connection nobody holds |
| RegistryShutdown.NoReaderGetsIn | storage/db_registry.go:807-808 | while Shutdown wants or has the lock of the map no job comes to read it |
| RegistryShutdown.FirstSteps | storage/db_registry.go:555-574 | the minimum-connections job looks once before its first tick, and the others do not |
| RegistryShutdown.MinConnsMayStopEarly | storage/db_registry.go:490-504 | the minimum-connections job, and no other, may skip a connection or give up in one |
| RegistryShutdown.NeverStuck | storage/db_registry.go:276-287 | with all jobs started, some step other than a tick can be taken until Shutdown returns |
| RegistryShutdown.WithoutTicksItEnds | storage/db_registry.go:124-180 | a run in which no ticker fires is bounded by what is left to do |
| RegistryShutdown.QuietRunsReturn | storage/db_registry.go:798-819 | with each job started exactly once nothing panics, and a run in which only ticks are left has made Shutdown return |
| RegistryShutdown.MayReturnIff | storage/db_registry.go:803-805 | from any reachable state Shutdown can still return exactly if all three jobs were started |
| RegistryShutdown.PanicsIff | storage/db_registry.go:555-574 | a done channel can be closed twice exactly if some job was started twice |
| RegistryShutdown.AsSetUpShutdownNeverReturns | plugin/backend.go:72-73 | with the health checks alone, as set-up starts them, Shutdown never returns |
| Degradation.SinceIsTheLastSwitchOn | plugin/backend.go:320-347 | in every run the time is set exactly while degradation is on, and is that of the last change from off to on |
| Degradation.UseWithoutTimeIff | plugin/backend.go:349-353 | over every run of calls: degradation is in use without a time exactly if the last manual call switched it on and the last call of all is a graceful switch-off |
| Degradation.Switches.SetGracefulDegradation | plugin/backend.go:320-329 | the setter against the value it is specified by |
| Degradation.Switches.SetManuallyEnabledDegradation | plugin/backend.go:337-347 | the setter against the value it is specified by |
| Degradation.Switches.AreAllPoolsHealthy | plugin/backend.go:370-383 | holds exactly with a registry that has pools, all of them healthy |
| Degradation.Switches.GetDegradationStatus | plugin/backend.go:385-401 | each pool is listed once, as healthy or as degraded; degraded means that one is not healthy, or no registry |
| Degradation.Switches.CanOperate | plugin/backend.go:403-426 | holds exactly with a registry and no degraded pool, or with the named region's pool healthy; the verdict names the right pools |
| ConnectionString.ParseConnectionString | security/connection.go:76-145 | the loop over characters computes the automaton's reading of the whole string |
| ConnectionString.ParseIsTheFormat | security/connection.go:76-145 | the automaton reads exactly the format given by two rules, one for keys and one for values |
| Text.TrimIs | security/connection.go:112-113 | trimming takes all spaces at both ends and nothing else |
| Text.Spaces | security/connection.go:125 | the white space of Unicode, by code points |
| Text.LowerCharIs | security/connection.go:116 | a capital letter becomes the small one, and any other character stays |
| Text.DecimalIsRead | odbc/odbc.go:141 | a printed number stands for itself, without a leading zero |
| ConnectionString.FeedConcat | security/connection.go:88-134 | reading two texts in a row is reading their concatenation |
| ConnectionString.ParseComposes | security/connection.go:76-145 | after an open value, `;` and more text parse to the first pairs overridden by the rest |
| ConnectionString.ParseParam | security/connection.go:111-133 | a clean parameter is read as its lower-case key with its value |
| ConnectionString.EveryValueCanBeWritten | security/connection.go:88-109 | quoted, with backslashes before quotes and backslashes, every value whatever is read back up to surrounding blanks |
| ConnectionString.AppendSets | odbc/odbc.go:235-273 | appending sets exactly its own key, keeps every other, and leaves a base fit for the next append |
| ConnectionString.SettingsAreSet | plugin/path_creds.go:751-779 | the four appends in a row set `sessiontimeout`, `timezone`, `charset` and `querytimeout` to the settings given and keep every other pair |
| ConnectionString.FinalIsRead | plugin/path_creds.go:751-779 | the final string is missing exactly without string and template, and is read as its base with the settings set |
| ConnectionString.AppendedIsReadIff | odbc/odbc.go:245-253 | the appended parameter is read as one exactly if the base ends in an open value, or in a backslash where a key would begin |
| ConnectionString.SemicolonBaseMisreads | odbc/odbc.go:245-253 | after a base that ends in `;` the key is read with `;` in front |
| ConnectionString.ParseJoined | odbc/odbc.go:128-190 | joined clean parameters parse to one pair each, a later one overriding an earlier one |
| ConnectionString.BuildRoundTrip | odbc/odbc.go:128-190 | a built string parses to exactly the configured values, each under its own key by name |
| Statements.ParseSQLStatements | odbc/odbc.go:864-890 | the loop over lines computes the cutting of the script |
| Statements.NothingIsLost | odbc/odbc.go:864-890 | the statements together are the lines that are not blank, in order |
| Statements.SemicolonsEndStatements | odbc/odbc.go:864-890 | a semicolon ends the last line of a statement and no other; only the last statement may lack it |
| Statements.OnlyOneCut | odbc/odbc.go:864-890 | these two facts leave one possible cutting |
| Statements.ReparseIsStable | odbc/odbc.go:864-890 | cutting the statements again, put together, gives the same statements |
| Statements.StatementStandsAlone | odbc/odbc.go:864-890 | each statement cut again is itself |
| Statements.ScriptsCompose | odbc/odbc.go:864-890 | a script whose last line closes can be cut apart from what follows |
| Statements.OneLineIsOneStatement | odbc/odbc.go:862-884 | semicolons inside a line do not cut it |
| Statements.ClosesIff | odbc/odbc.go:875-884 | a line closes a statement exactly if a semicolon is the last thing on it but for spaces |
| Statements.KeptOne | odbc/odbc.go:870-873 | of single lines just the blank ones are dropped |
| Statements.WhatAStatementSends | odbc/odbc.go:957-966 | a statement is sent without surrounding spaces, without its one final semicolon, and without the spaces before that; blank text and a lone semicolon send nothing |
| Statements.ScriptConcat | odbc/odbc.go:954-976 | several statements send what each of them sends, in order |
| Statements.OneLineIsSent | plugin/path_creds.go:914-915 | one line of text, with or without a semicolon behind it, is sent as it is |
| Substitution.ReplaceAllString | plugin/path_revoke_creds.go:125-136 | the index loop computes one pass, with bytes outside ASCII re-encoded |
| Substitution.PassIsReplaceAll | plugin/path_creds.go:283-284 | on ASCII a pass is the library's replacement, which creation uses |
| Substitution.FirstIsReplaced | plugin/path_revoke_creds.go:125-136 | a pass puts the value where the placeholder is found first and goes on behind it |
| Substitution.NothingIsReplaced | plugin/path_revoke_creds.go:125-136 | text without the placeholder is only re-encoded |
| Substitution.Utf8Decodes | plugin/path_revoke_creds.go:125-136 | a byte outside ASCII becomes the two bytes that UTF-8 decodes to its number |
| Substitution.PlaceholdersAre | plugin/path_revoke_creds.go:104-108 | the placeholders letter by letter |
| Substitution.PassCounts | plugin/path_revoke_creds.go:125-136 | what a pass does to the number of braces, and that it doubles the bytes outside ASCII |
| Substitution.ChangingPassLosesBraces | plugin/path_revoke_creds.go:110-123 | a pass changes ASCII text exactly if the placeholder occurs, and then strictly lowers the braces |
| Substitution.SettlesIff | plugin/path_revoke_creds.go:110-123 | for a value without braces the loop ends exactly if the text is ASCII, and the value too unless there is nothing to replace |
| Substitution.FilledOnce | plugin/path_revoke_creds.go:110-123 | the loop has one possible result |
| Substitution.ReplaceVariable | plugin/path_revoke_creds.go:110-123 | the loop ends wherever some pass changes nothing, with the text of the first such pass; an empty value changes nothing |
| Substitution.ReplaceVariables | plugin/path_revoke_creds.go:104-108 | both placeholders are filled in, the username first |
| Substitution.FillingLeavesNoPlaceholder | plugin/path_revoke_creds.go:110-123 | a filled-in value without braces leaves no placeholder |
| Substitution.OnePassIsEnoughIff | plugin/path_creds.go:283-284 | the loop comes to one library pass exactly if that pass leaves no placeholder |
| Substitution.PassCanFormAPlaceholder | plugin/path_revoke_creds.go:125-136 | a replacement can form the placeholder again |
| Substitution.PlaceholderAsItsOwnValue | plugin/path_revoke_creds.go:116-121 | a value that is the placeholder ends the loop with the placeholder in place |
| Retry.PredicatesAgreeOnPlain | retry/retry.go:74-114 | the two retryability predicates agree on every plain message |
| Execution.Database.ExecuteMultipleStatementsOnce | odbc/odbc.go:954-976 | sends the script in order, each statement answered by the database at that instant, up to the first failure, which is the answer |
| Execution.Database.ExecuteMultipleStatements | odbc/odbc.go:909-952 | every exchange and the answer are those of the specified loop |
| Execution.Database.ConnectAndExecute | plugin/path_creds.go:694-710 | one try: a connection, and the script if there is one |
| Execution.Database.ExecuteSQL | retry/retry.go:121-181 | every exchange, every wait and the answer are those of the specified loop around connection and script |
| Retry.SendAllIsRound | odbc/odbc.go:954-976 | a go at the script sends it in order and only a failure cuts it short |
| Retry.LoopedStaysIn | retry/retry.go:137-177 | an induction principle over the tries of a loop: what each way a turn can end keeps, every run of the loop has |
| Courses.LoopedIsACourse | retry/retry.go:137-177 | every trip of a retry loop, instant by instant: which tries there are, why each is followed by another, after which wait, and why the last is the last |
| Courses.MultipleIsACourse | odbc/odbc.go:909-952 | that course for a connection's own retries, which go by the message |
| Courses.WholeIsACourse | plugin/path_creds.go:694-710 | that course for the outer loop, which goes by the kind of error, with three attempts when none are configured |
| Courses.GoIs | odbc/odbc.go:954-976 | one go sends each statement at its instant up to the first that fails, which is the answer |
| Courses.TryIs | plugin/path_creds.go:694-710 | one try connects, and has the connection's own retries behind it exactly if there is one |
| Courses.NothingToSend | odbc/odbc.go:909-919 | without a connection the script is refused; without text or a go allowed it is done |
| Courses.WorthAnotherTry | retry/retry.go:66-109 | the inner loop retries exactly messages that contain one of fifteen indicators; the outer goes by the kind of error, and by the same indicators for plain ones |
| Retry.MultipleIsGood | odbc/odbc.go:909-952 | at most MaxRetries goes, each but the last failed transiently; an error is the answer to the very last event; nil comes after a complete go |
| Retry.MultipleIsJustified | odbc/odbc.go:921-949 | the loop stops only for the answer of an ended context, or after a go that succeeded, failed with an error not worth another, or was the last allowed |
| Retry.UnconnectedSendsNothing | plugin/path_creds.go:695-698 | a try whose connection fails sends nothing, and answers with the error of the connection |
| Retry.WholeIsGood | plugin/path_creds.go:694-710 | one call sends goes at the script only, at most attempts times retries, each but the last failed transiently; an error is the answer to the very last event; nil comes after a complete go |
| Retry.WholeIsJustified | retry/retry.go:137-177 | the outer loop stops only for the answer of an ended context, or after a try that succeeded, failed with an error not worth another, or was the last; a context ended before sends nothing |
| Retry.WholeWaits | retry/retry.go:160-175 | one wait follows each failed try but the last, and one more when it was cut short |
| Retry.SentArePrefixes | odbc/odbc.go:954-976 | the statements sent are prefixes of the script, one after the other |
| Retry.CompleteIsSentLast | odbc/odbc.go:936-939 | a script that ended well is the last thing sent, whole and without a failure |
| Retry.WithoutFailureOneRound | odbc/odbc.go:936-939 | where no statement fails the script is sent once |
| Retry.WhatIsSent | plugin/path_creds.go:694-710 | the statements of one call are at most MaxAttempts times MaxRetries prefixes of the script, the last of them whole when the answer is nil |
| Backoff.BuildRetryConfig | plugin/path_creds.go:722-749 | whatever is configured, attempts, intervals and multiplier come out positive, and what is configured positive is kept |
| Backoff.DefaultsAre | retry/retry.go:17-20 | three attempts, a tenth of a second doubled each time, up to five seconds |
| Backoff.IntervalsAre | retry/retry.go:111-119 | the first interval, the step to the next, and the cap |
| Backoff.IntervalsGrow | retry/retry.go:111-119 | with a multiplier of at least one no interval is shorter than the one before |
| Backoff.IntervalsGrowIff | retry/retry.go:111-119 | whatever first interval and cap, the intervals never shrink exactly if the multiplier is at least one |
| Backoff.PowersFall | retry/retry.go:111-119 | below one the uncapped intervals fall under any cap |
| Backoff.WaitBounds | retry/retry.go:111-119 | each wait lies between its interval and 1.3 times it, and so of the cap |
| Backoff.IsWaitIff | retry/retry.go:111-119 | the possible waits are exactly those from the interval up to 1.3 times it |
| Backoff.GeometricSum | retry/retry.go:111-119 | the closed form of the sum of the uncapped intervals |
| Backoff.TotalWait | retry/retry.go:139-177 | all waits of one call are within 1.3 times (attempts - 1) caps and within 1.3 times the geometric sum |
| Passwords.EnsurePasswordRequirements | plugin/path_creds.go:612-655 | for every choice the length stays, only as many leading positions change as kinds are missing, and each holds the last kind written to it |
| Passwords.AlphabetsAre | plugin/path_creds.go:587-590 | the four alphabets |
| Passwords.OverlayIsLast | plugin/path_creds.go:645-652 | in a password shorter than what is missing, a position keeps the last kind written to it |
| Passwords.AllFourInFront | plugin/path_creds.go:639-652 | missing kinds are put in front as lower case, upper case, digit, special |
| Passwords.KindIsThereIff | plugin/path_creds.go:639-652 | a missing kind gets in; a present one stays exactly if it occurs behind the overwritten part |
| Passwords.EnsuredMeetsRequirementsIff | plugin/path_creds.go:612-655 | all four kinds are there exactly if the password is long enough for the missing ones and no present kind stood only where they were written |
| Passwords.OnlyDigitIsOverwritten | plugin/path_creds.go:645-652 | a concrete password of sixteen characters that loses its only digit, whatever letter is chosen |

## Left out

- Concurrency between whole handlers of the credential lifecycle: they run one at a time; the background sweep of the credential cache runs between them. Roles stay fixed during a run.
- Storage listings and reads, SQL and clocks: answers that are parameters of each step. A database that reports an error after it applied a statement is not covered.
- Prefix, allowed-role, pool-health, template and password-generation checks of the handlers: one answer, since none touches the state. A role without a statement counts as a statement that succeeded.
- Fields of an answer that repeat the record or the role, and the password, which is in no record: an answer is its outcome, its line for each name, or its count.
- Backends.Backend.GetCachedCredential: one clock reading for the lookup and for the entry it makes.
- Backends.Backend.StoreRenewal: one clock reading for LastRenewed and ExpiresAt, where the source takes two.
- CredentialCaching.CredentialCache.Get: the lookup is one step; the race between its read lock and the write lock of its clean-up is not modelled.
- Lifecycle.RunKeepsCap: of renewals it asks that they fit, because they ignore the maximum; `RenewalKeepsCapIff` and `BatchKeepsCapIff` say that they must.
- Lifecycle.LeaseNamesOneCredential: role names and usernames without a slash, since the lease is split at slashes.
- Substitution.SettlesIff: for values with a brace the loop may end or not (`PlaceholderAsItsOwnValue` is one that ends); `ReplaceVariable` covers every input on which it does.
- ConnectionString.BuildRoundTrip: values with `;`, `"`, a backslash, a line break or surrounding blanks are not promised to survive, as the builder does not quote them; lower-casing beyond ASCII is not modelled.
- ConnectionString.SettingsAreSet: a template arrives filled in; the order in which its variables are replaced is not part of this model.
- Execution.Database.ExecuteSQL: a retry configuration is always given, as creation and cleanup give one (plugin/path_creds.go:692). The separate retries of opening a connection are one answer.
- Revocation.BulkRevokeReaches: describes the evident intent, with a retry configuration given. All three bulk revocations (plugin/path_bulk_revoke.go:112, 261, 411) and the single one (plugin/path_revoke_creds.go:65) pass none, and retry/retry.go:124 reads it before it looks whether it is nil, so that as written they end there, before any user is dropped.
- Revocation.RevokeByRoleTheorem: its completeness, that only unreadable records are left, for the same reason; what it says of records not touched does not depend on it.
- Revocation.RevokeEveryoneTheorem: its completeness, for the same reason.
- Leftovers.StepKeepsUsersIff: its cases of revocations, for the same reason; those of creation and cleanup do not depend on it.
- Renewals.RenewalsAreReported: with the rest of `Renewals`, `Lifecycle.RenewalKeepsCapIff` and the renewals of `Backends` (`RenewCredential`, `RenewTurn`, `RenewCredentialBatch`), for the same reason: plugin/path_renew_creds.go:77 and plugin/path_renew_batch.go:167 pass no retry configuration.
- Backends.Backend.RevokeLease: the framework's revocation, like the revocations of `Backends` and the renewals, describes the intent with a retry configuration given; plugin/backend.go:492 and 508 pass none.
- Backoff.WaitBounds: real numbers, where the source truncates to whole nanoseconds and so waits no longer.
- RegistryShutdown.AfterShutdown: requests that add or remove connections during Shutdown are not modelled, and a job's three loops differ only in where they begin and in what they may skip.
- Degradation.Switches.CanOperate: the registry does not change during one call.
- Backends.Backend.Reload: the plugin's reload also shuts the old registry down first, under the backend's lock, and as set up that Shutdown never returns; the model's reload does the cache part and returns.
- LoadFill.AtomicHandlersAgree: requires that no write without invalidation changes a cached value. Such writes are a restore, the only writer of the unnamed configuration, of roles and statements (plugin/path_config_backup.go:151-181), and a role read that migrates (plugin/path_roles.go:259-266). The present handlers do not read through these caches.
- Service.Serve: over a whole script it leaves open which failed reads the cache spares; `Perform` says it request by request.
- Passwords.EnsurePasswordRequirements: the rest of the password generator, and where its randomness comes from.
- The keep-alive goroutine of a connection, which StopKeepAlive awaits while it holds the lock the goroutine needs.
- Adding, updating and removing pools of the registry: defaults for settings, and one map entry each.
- The token bucket inside a limiter: not part of this model.
- Keyword validation of connection strings, SQL injection lists and result limits.
- Role migration, backup and restore, static roles, and reading and writing of configurations and roles: short branches.
- Audit entries, webhooks, logs, traces and metrics.
