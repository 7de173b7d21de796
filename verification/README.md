# Larenor: verified models of its hardest logic

A Dafny 4.11 project that models the parts of Larenor whose correctness does not follow from reading one function, and
proves what they are for: crash recovery of an install and upgrade, the session tables of the server, balanced test
sharding, the roadmap queue and its commit gate, the deployment planner and its preflight, artifact retention against a
changing server, atomic configuration installation, and the escaping of Java property files.

`dafny verify dfyconfig.toml` checks everything.

| component | modules |
|---|---|
| shared | `Wrappers` (`Option`, `Result`), `Ordering` (Python's sort and string orders) |
| install/upgrade journal | `InstallJournal` (disk, history, safety), `NativeRuns` (the driver and whole runs) |
| sessions | `Sessions` (transactions as functions of the tables), `SessionRuns` (every interleaving), `SessionLifetime`, `SessionProgress`, `SessionDecisions` (when each transaction goes through, by the rows alone), `AuthServices` (the service object), `SessionServer` (any sequence of calls on it), `RateLimiter` |
| test sharding | `Greedy` (longest-first assignment and its bounds), `Occupancy` (which shards are filled), `Sharding` (both sharders) |
| roadmap queue | `DependencyGraph` (depth-first search), `ExecutionQueue` (completion, readiness), `QueueFields` (both, by the fields of the nodes), `QueueModel` (the object with its memo), `ProgressTrailers`, `ProgressReading` (which messages are refused), `CommitGate` |
| deployment | `StoragePreflight`, `AcceptanceHost`, `DirectoryPlan`, `DeploymentManifest`, `OwnershipRules` (both, by the mounts and literal values), `CleanTree` |
| artifact retention | `ArtifactRetention` (ranking), `RetentionLog` (what justifies a deletion), `RetentionRun` (the requests) |
| configuration install | `ConfigStore` (file system with volatile and durable parts), `ConfigInstall` (the helper) |
| Android signing | `JavaProperties` |

How the models are built:

- **Journal.** The disk is one value holding the ownership receipt, journal, installation receipt, containers, private
  state and the history of all durable writes and effects. Every external step of the driver asks an environment that may
  let it succeed, make it raise, or kill the process, before or after the step took effect. Revisions and identities are
  numbers.
- **Sessions.** Each transaction is one function of the tables; a login and a password change are split at their password
  check, so any number can be pending while others commit, also of one account and password. Hashes carry their password, salt and whether their parameters
  are current; ids, tokens and salts are values never drawn before. An error raised inside a transaction leaves the
  tables unchanged, one raised after it keeps what the transaction did. Account administration enters as environment
  steps. The class `AuthServices.AuthService` carries out the same transactions step by step on its own tables, and
  `SessionServer.ServeAll` shows that any sequence of calls on it leaves the tables, and gets the answers, of the run with
  the same events.
- **Retention.** Every request and clock reading is logged, and the server may answer anything at any time.
- **Configuration install.** A power loss keeps synced file contents, may put anything into other files, and lets each
  directory entry fall back to any value it had since the directory was synced. A killed run changes nothing further.
- Clocks, randomness, directory listings, path inspections and server answers are parameters.

Four results differ from what the code's own messages suggest:

- "Already installed" from the configuration helper does not promise durability. If an earlier run was killed between
  removing its temporary name and syncing the directory, the answer is given without any sync, and a power loss can still
  remove the file; `ConfigInstall.AlreadyInstalledMayVanish` carries these runs out. In every history the bytes shown
  survive all power losses exactly when, since they were linked, the directory was synced or the power was lost already,
  and, for a directory of its own, the same for the root since that directory was made (`ConfigStore.SurvivesExactly`).
  Every run that answered "installed" has made both syncs.
- The path `/` can never pass the clean-tree check, because it is its own parent and nothing lists an empty name
  (`CleanTree.RootNeverClean`); the settings check refuses it as a data root before that.
- An interrupted install or upgrade whose journal holds only an intent can never be taken up again; every later run, and cleanup,
  refuses it and leaves everything in place (`NativeRuns.RunAll`).
- A second run after a success is refused because the root exists, and then, finding no journal, removes the finished
  installation (`NativeRuns.RunTwice`).

## Model

| member | source | states |
|---|---|---|
| InstallJournal.StartedOnce | tool/unified_media_stack_managed_ci.py:704-866 | In a safe history two starts are of different effects or belong to different owned roots: install and upgrade are each started at most once per root |
| InstallJournal.ReceiptFollowsEffect | tool/unified_media_stack_managed_ci.py:1933-1956 | Every receipt for a revision is preceded by its journaled effect, that by the completed effect, and that by its start |
| InstallJournal.IntentKeeps | tool/unified_media_stack_managed_ci.py:1878-1931 | Journaling an intent that names root, operation, base and target truly keeps disk and history in agreement, for an install under an untouched root or an upgrade over a journaled install |
| InstallJournal.BeginKeeps | tool/unified_media_stack_managed_ci.py:1878-1931 | Starting an effect that was never started under its root, with its intent journaled, keeps the invariant |
| InstallJournal.EffectKeeps | tool/unified_media_stack_managed_ci.py:1878-1931 | Journaling a completed effect, with true identity and the private state it left, keeps the invariant |
| InstallJournal.ReceiptKeeps | tool/unified_media_stack_managed_ci.py:1933-1949 | A receipt for a journaled revision keeps the invariant |
| InstallJournal.DropJournalKeeps | tool/unified_media_stack_managed_ci.py:1933-1949 | Removing a journal keeps the invariant |
| InstallJournal.RemovalKeeps | tool/unified_media_stack_managed_ci.py:2481-2687 | Removing the root without a journal keeps the invariant |
| NativeRuns.DockerDriver.WriteEffect | tool/unified_media_stack_managed_ci.py:1889-1894 | Journals exactly the effect with this root's identity, its base and target, and the private state just read or, for an upgrade, to be preserved; or leaves the disk as it was |
| NativeRuns.DockerDriver.ApplyInstall | tool/unified_media_stack_managed_ci.py:1878-1896 | Intent, effect and journaled effect in that order, from an untouched root, however it is interrupted; what the journal then holds is stated in full, and a journaled effect is undisturbed |
| NativeRuns.DockerDriver.ApplyUpgrade | tool/unified_media_stack_managed_ci.py:1898-1931 | The same for the upgrade, whose journal records the base effect and the private state to preserve, and which keeps private state and receipt |
| NativeRuns.DockerDriver.Reconcile | tool/unified_media_stack_managed_ci.py:1973-2028 | Gives back the journaled effect only when it is complete, belongs to this root and operation, and containers and private state are the recorded ones, and then always unless the environment interferes; changes nothing on disk |
| NativeRuns.DockerDriver.Persist | tool/unified_media_stack_managed_ci.py:1933-1949 | Writes the receipt and, for the target revision, removes the journal; an interruption leaves one of the states between |
| NativeRuns.DockerDriver.ApplyOrReconcile | tool/unified_media_stack_managed_ci.py:704-739 | An exception after the effect was journaled is answered by reconciling: the call then fails only at a second fault, and the effect is never applied again |
| NativeRuns.DockerDriver.RecoverInstall | tool/unified_media_stack_managed_ci.py:756-782 | A journaled install that cannot be taken up leaves the disk untouched; one that can stays so however the recovery is interrupted, and ends with its base receipt stored |
| NativeRuns.DockerDriver.RecoverUpgrade | tool/unified_media_stack_managed_ci.py:783-829 | A journaled upgrade is only receipted and its journal removed; undisturbed, it finishes |
| NativeRuns.DockerDriver.InstallUpgrade | tool/unified_media_stack_managed_ci.py:742-866 | With a journal nothing is installed anew; a calm environment leads to the target receipt without a journal; on success the evidence names the stored receipt, the base revision, whether a journal was taken up, and the base effect that journal recorded |
| NativeRuns.DockerDriver.PrepareOwned | tool/unified_media_stack_managed_ci.py:2044-2131 | Adopts a root only with a pending journal of this commit, otherwise makes a new one; a root without a journal is refused |
| NativeRuns.DockerDriver.CleanupOwned | tool/unified_media_stack_managed_ci.py:2481-2687 | Under a journal nothing is removed and the call fails; without one, what this commit owns is removed unless the environment interferes; success means root and ownership receipt are gone |
| NativeRuns.DockerDriver.RunNative | tool/unified_media_stack_managed_ci.py:869-1041 | A journal that cannot be taken up makes the run fail with the disk unchanged; otherwise a run that leaves a journaled effect leaves it such that the same run can take it up; without interference it succeeds exactly when there is such an effect or nothing at all, and then ends with the target receipt and no journal; after a failure the root is kept if that was asked for or a journal is left, and is otherwise removed unless the removal fails as well; on success the evidence names the receipt on disk for the target, the base revision as the clean installation, recovery exactly if there was a journal, and then the base effect that journal recorded; both effects it names are completed ones of this root's history |
| NativeRuns.EffectCanBeTakenUp | tool/unified_media_stack_managed_ci.py:1973-2028 | A journaled effect can be taken up, for its base and the commit that owns the root, exactly while containers and private state are as it left them |
| NativeRuns.RunAll | tool/unified_media_stack_managed_ci.py:869-1041 | Any sequence of runs, cleanups and outside disturbances, each dying anywhere, extends a safe history; a journal holding only an intent stays untouched by all of them; a journaled effect left by them can be taken up exactly while undisturbed |
| NativeRuns.FinishAfter | tool/unified_media_stack_managed_ci.py:869-1041 | After any such sequence an undisturbed journaled effect is brought to the target receipt and no journal by one more run without interference |
| NativeRuns.RetryThenFinish | tool/unified_media_stack_managed_ci.py:869-1041 | However often runs of one base and target die, with cleanups between them, a journaled effect they leave can be taken up, and one run without interference ends in the target receipt and no journal |
| NativeRuns.RunTwice | tool/unified_media_stack_managed_ci.py:1024-1041 | A second run after a success is refused and removes the finished installation |
| SessionRuns.InvRun | server/larenor_server/auth.py:83-230 | Every interleaving of the transactions, with administration in between, keeps the table bounds, the hash and ticket invariants, and the token evidence |
| SessionRuns.EveryLoginPends | server/larenor_server/auth.py:90-97 | A login that passes its check is pending beside all others, even of the same account and password |
| SessionRuns.HashVerifiesCurrentPassword | server/larenor_server/auth.py:83-104 | In every reachable state the stored hash verifies exactly the password the account was last given |
| SessionRuns.LoginCommitsCurrentPassword | server/larenor_server/auth.py:83-104 | A login checked earlier commits only if its password is the account's password at commit time |
| SessionRuns.ChangeCommitsOnce | server/larenor_server/auth.py:210-230 | Of all changes verified against one stored hash at most one ever commits |
| SessionRuns.RefreshSucceedsOnce | server/larenor_server/auth.py:171-201 | No refresh token succeeds twice in any run |
| SessionRuns.ReplayEndsFamily | server/larenor_server/auth.py:171-201 | After a consumed refresh token is presented on an enabled account, no token ever issued to its family is accepted again, in every continuation |
| SessionRuns.TablesStayBounded | server/larenor_server/auth.py:106-130 | At most 32 families per user, 1 to 4096 tokens per family with exactly one unrotated, and access expiry within the family's expiry or one second of issue |
| SessionRuns.NoUseAfterLifetime | server/larenor_server/auth.py:144-156 | An accepted token is used before its family's creation plus the refresh lifetime |
| SessionLifetime.NoChainOutlivesLogin | server/larenor_server/auth.py:171-201 | Whatever follows a login, no token of its family, however often refreshed, is accepted at or after login time plus refresh lifetime |
| SessionProgress.LoginDecision | server/larenor_server/auth.py:90-96 | The password check lets in exactly the enabled account of that name that was last given this password |
| SessionProgress.LoginCommits | server/larenor_server/auth.py:97-104 | A login that passed its check and that nothing interrupts commits |
| SessionProgress.LoginAccepted | server/larenor_server/auth.py:97-130 | The access token of a committed login is accepted, for that user, exactly until it or its family expires |
| SessionProgress.RefreshAccepted | server/larenor_server/auth.py:171-201 | The same for the access token a refresh grants |
| SessionProgress.RefreshHandsOver | server/larenor_server/auth.py:190-197 | After a refresh no other access token of the family is accepted at any time |
| SessionProgress.OneAcceptedToken | server/larenor_server/auth.py:144-156 | In every reachable state at most one access token of a family is accepted, whenever they are presented |
| SessionDecisions.AccessDecision | server/larenor_server/auth.py:144-156 | An access token is accepted exactly while its row is unconsumed and unexpired, its family unrevoked and unexpired and its account enabled, and gives that account and family |
| SessionDecisions.CurrentMeansAccepted | server/larenor_server/auth.py:158-169 | A session is current exactly when presenting its token again would give the same principal |
| SessionDecisions.RefreshDecision | server/larenor_server/auth.py:171-201 | A refresh token goes through exactly while unconsumed, unexpired, its family unrevoked and below 4096 tokens, and its account enabled and not due for a new password; which refusals end the family, and that no other changes anything |
| SessionDecisions.LogoutDecision | server/larenor_server/auth.py:203-208 | A logout goes through exactly for a session whose token would be accepted, makes its family dead and changes nothing else |
| SessionDecisions.LoginTicketContents | server/larenor_server/auth.py:90-96 | A checked login carries the stored hash, and a new hash of the same password exactly when the stored one has outdated parameters |
| SessionDecisions.LoginCommitDecision | server/larenor_server/auth.py:97-104 | A pending login commits exactly while its account is enabled and still has the hash it was checked against; only then is the hash replaced |
| SessionDecisions.ChangeDecision | server/larenor_server/auth.py:210-218 | In every reachable state a password change passes its check exactly for the password the account was last given and a different new one; each refusal has its own code; the pending change carries the stored hash and one of the new password under a new salt |
| SessionDecisions.ChangeCommitDecision | server/larenor_server/auth.py:219-230 | A pending change commits exactly for a session that would still be accepted, over the hash it was checked against, before the family ends |
| SessionDecisions.LoginKeepsNewest | server/larenor_server/auth.py:106-118 | A login keeps exactly the 31 newest families of its account with their tokens, adds one, and leaves other accounts alone |
| SessionDecisions.ChangeSparesOthers | server/larenor_server/auth.py:219-230 | A password change leaves the families and tokens of other accounts alone |
| SessionDecisions.LoginRefreshes | server/larenor_server/auth.py:97-130 | In every reachable state the refresh token of a login works exactly until its family ends, unless the account is due for a new password |
| SessionDecisions.RefreshAgain | server/larenor_server/auth.py:171-201 | So does that of a refresh while its family has fewer than 4096 tokens |
| SessionDecisions.ChangeAccepted | server/larenor_server/auth.py:219-230 | The access token of a committed password change is accepted, for its user, exactly until it or its family expires |
| SessionDecisions.AccessTtlIsLongest | server/larenor_server/auth.py:120-130 | An access lifetime is the most whole seconds, at least one, within both the configured lifetime and what remains of the family |
| SessionDecisions.LoginLifetime | server/larenor_server/auth.py:97-130 | The token of a login lasts as long as it may |
| SessionDecisions.ChangeLifetime | server/larenor_server/auth.py:219-230 | The token of a password change lasts as long as it may |
| SessionDecisions.RefreshLifetime | server/larenor_server/auth.py:190-201 | The token of a refresh lasts as long as it may |
| SessionLifetime.BirthRun | server/larenor_server/auth.py:106-118 | No run changes the creation time of a family or creates a family under an id drawn earlier |
| SessionRuns.ChangeLeavesOneSession | server/larenor_server/auth.py:219-230 | Right after a committed change the family it created is the user's only unrevoked one |
| SessionRuns.ChangeEndsOldSessions | server/larenor_server/auth.py:219-230 | Tokens of the user's earlier families stay unusable in every continuation |
| Sessions.CommitLoginKeeps | server/larenor_server/auth.py:83-118 | The login transaction keeps the tables valid and revoked or deleted families dead |
| Sessions.RefreshKeeps | server/larenor_server/auth.py:171-201 | The same for refresh, including the revocation that survives the refusal |
| Sessions.LogoutKeeps | server/larenor_server/auth.py:203-208 | The same for logout |
| Sessions.CommitChangeKeeps | server/larenor_server/auth.py:210-230 | The same for the password change |
| AuthServices.AuthService.IssueTokens | server/larenor_server/auth.py:120-130 | One token row with the access lifetime cut to what is left of the family, at least one second |
| AuthServices.AuthService.StartSession | server/larenor_server/auth.py:106-118 | The loop that deletes all but the newest 31 families one by one, then adds one, has the effect of the table function |
| AuthServices.AuthService.CheckLogin | server/larenor_server/auth.py:83-96 | The part of a login outside the transaction |
| AuthServices.AuthService.FinishLogin | server/larenor_server/auth.py:97-104 | The login transaction: re-check, optional rehash, new family |
| AuthServices.AuthService.AuthenticateToken | server/larenor_server/auth.py:144-156 | Accepts exactly the access tokens the table function accepts, without changing anything |
| AuthServices.AuthService.RefreshSession | server/larenor_server/auth.py:171-201 | Rotation, replay revocation and the token limit; the revocation is kept although the call is refused |
| AuthServices.AuthService.EndSession | server/larenor_server/auth.py:203-208 | Logout revokes the caller's family if the session is current |
| AuthServices.AuthService.CheckChange | server/larenor_server/auth.py:210-218 | The part of a password change outside the transaction; `SessionDecisions.ChangeDecision` says when it passes |
| AuthServices.AuthService.FinishChange | server/larenor_server/auth.py:219-230 | The change transaction: re-check, new hash, revoke all, new family |
| SessionServer.Server.Handle | server/larenor_server/auth.py:83-230 | One call on the service object, with any number of others pending, has the effect and the answer of the event in the run |
| SessionServer.ServeAll | server/larenor_server/auth.py:83-230 | Any sequence of calls leaves the tables of the run with the same events and gets its answers, so that the results about runs hold of the service |
| RateLimiter.Limiter.RateLimit | server/larenor_server/auth.py:63-81 | Purge, count and cap in one transaction, with the counts kept even when the call is refused |
| RateLimiter.RowsAfterCall | server/larenor_server/auth.py:63-81 | A named key is dated now and counted in the current window, another row stays as it was for an hour after it was touched, and a row goes earlier only from a table of 10000 in which nothing is older |
| RateLimiter.StoredCountIsExact | server/larenor_server/auth.py:63-81 | While the cap has not removed a key, its stored count is how often calls named it in the current window; the purge never touches a current row |
| RateLimiter.DeniedExactly | server/larenor_server/auth.py:63-81 | While the cap spares the keys it names, a call is refused exactly when, counting the calls of its window, some key it names is over its limit |
| RateLimiter.AtMostLimitAdmitted | server/larenor_server/auth.py:63-81 | At most `limit` calls naming a key pass in one window |
| RateLimiter.AdmittedWithinLimit | server/larenor_server/auth.py:68-81 | A call that passes leaves each named key's count at or below its limit, even when it names the key several times |
| RateLimiter.TableCapped | server/larenor_server/auth.py:78-81 | At most 10000 rows after every call |
| RateLimiter.KeptWhileFewKeys | server/larenor_server/auth.py:77-79 | While at most 10000 different keys are named within an hour, the cap never removes a row, so that the exact counts hold |
| Greedy.ListBound | tool/server_test_shards.py:84-92 | In any order m times the heaviest shard is at most the total plus (m-1) times the largest weight |
| Greedy.LargeJobsFit | tool/flutter_test_shard.py:30-37 | Jobs above a third of another assignment's maximum are placed within that maximum |
| Greedy.GrahamBound | tool/flutter_test_shard.py:30-37 | Longest first: 3m times the heaviest shard is at most (4m-1) times the heaviest shard of any other assignment |
| Greedy.GreedyChoice | tool/server_test_shards.py:84-92 | Each job goes to a shard of least total at that moment, then, by the rule, of least count, then of least index |
| Greedy.MaxLoadIsLargest | tool/server_test_shards.py:95-97 | The largest load is the load of some shard and no shard has more |
| Ordering.CodeLessDecides | tool/server_test_shards.py:83-98 | Strings are ordered at the first difference, where one ends or has the smaller character |
| Ordering.PathLessDecides | tool/flutter_test_shard.py:38 | Paths likewise, with the separator before every other character |
| Sharding.WithinFourThirdsOfAnyPlacement | tool/server_test_shards.py:82-92 | The same bound for the sharder's result against every placement of the same files |
| Occupancy.CountRuleFills | tool/server_test_shards.py:86-94 | With ties broken by count every shard is used exactly when there are at least m files, whatever the weights |
| Occupancy.IndexRuleFills | tool/flutter_test_shard.py:34-40 | With ties broken by index, every shard is used exactly when positive weights, plus one if any is zero, number at least m |
| Sharding.FlutterFills | tool/flutter_test_shard.py:34-40 | The same for the files as discovered |
| Sharding.ManifestsPartition | tool/server_test_shards.py:84-98 | Every path occurs in the manifests as often as among the files: exactly once for distinct paths, and no other path |
| Sharding.ManifestsOrderFree | tool/flutter_test_shard.py:29-38 | The manifests do not depend on discovery order |
| Sharding.OrderedExplicitly | tool/server_test_shards.py:83 | Files are placed heaviest first, equally heavy ones by path |
| Sharding.ManifestContents | tool/server_test_shards.py:84-98 | A manifest holds exactly the paths of the files placed on its shard, sorted |
| Sharding.UnbalancedMeans | tool/server_test_shards.py:95-97 | Uneven means that every shard has work and some total exceeds five quarters of another |
| Sharding.Spread | tool/server_test_shards.py:84-92 | The greedy loop's buckets and totals are those of the assignment |
| Sharding.Partitions | tool/flutter_test_shard.py:24-41 | Each error exactly under its condition, `empty_test_shard` exactly when the fillable shards are too few; otherwise the manifests |
| Sharding.FallbackWeight | tool/server_test_shards.py:81-82 | Files without a recorded duration get the largest recorded one, or 1.0 |
| Sharding.PartitionTestFiles | tool/server_test_shards.py:67-98 | Each path is weighted with its recorded duration or else the largest recorded one; success exactly under the listed conditions with the manifests of these files, never with an empty shard |
| DependencyGraph.RankedIsAcyclic | tool/execution_queue.py:172-185 | A finishing order that every edge descends rules out cycles |
| DependencyGraph.Search.Visit | tool/execution_queue.py:174-182 | Refuses only if there is a cycle, otherwise finishes the node; terminates because the nodes off the current path shrink |
| DependencyGraph.CheckAcyclic | tool/execution_queue.py:172-185 | Accepts exactly the acyclic graphs and yields a finishing order |
| ExecutionQueue.RankIrrelevant | tool/execution_queue.py:240-245 | Completion does not depend on how acyclicity is shown |
| QueueFields.CycleMeans | tool/execution_queue.py:167-185 | The combined graph has a cycle exactly when some walk along `parent`, `dependsOn` and `finishDependsOn` ends where it began |
| QueueFields.DoneMeans | tool/execution_queue.py:240-245 | A group is done when every node that names it as parent is, any other node when it is marked so |
| QueueFields.StartedMeans | tool/execution_queue.py:186-192 | A node is properly started when no `dependsOn` is open if it is underway, waiting or finished, and no `finishDependsOn` if it is finished |
| QueueFields.AcceptedMeans | tool/execution_queue.py:167-192 | An acyclic queue is accepted exactly when no group is childless and nothing is started or finished too early |
| ExecutionQueue.FinishedLeadsToFinished | tool/execution_queue.py:186-192 | In an accepted queue everything reachable from a done node is done |
| ExecutionQueue.NeverStuck | tool/execution_queue.py:274-285 | While a node is unfinished, some task is underway, waits for the user, or is ready |
| QueueModel.Queue.Completed | tool/execution_queue.py:240-245 | Memoised completion equals the plain recursive definition and keeps the memo right |
| QueueModel.Queue.Blockers | tool/execution_queue.py:247-252 | Exactly the unfinished ones among `dependsOn` and, when finishing, `finishDependsOn`, in order |
| QueueModel.Queue.Inside | tool/execution_queue.py:257-263 | The climb through the parents ends and finds exactly the ancestors |
| QueueModel.ValidateQueue | tool/execution_queue.py:167-192 | By the fields alone: `dependency_cycle` exactly when no group is childless and some walk from groups to children and from others to `dependsOn` and `finishDependsOn` returns to its start; success exactly when no node is underway or finished before its dependencies allow |
| QueueModel.NextActions | tool/execution_queue.py:274-285 | All underway, waiting and user rows, and the first ready tasks in file order up to the limit |
| QueueModel.ReadyMeans | tool/execution_queue.py:274-285 | A ready row is a pending task whose `dependsOn` are all done, whatever its `finishDependsOn` |
| QueueModel.RowsInFileOrder | tool/execution_queue.py:274-285 | All rows are shown in the order of the file |
| QueueModel.UnfinishedCopies | tool/execution_queue.py:247-252 | Each unfinished dependency is a blocker as often as it is named, each finished one never |
| QueueModel.NextActionsShowWork | tool/execution_queue.py:274-285 | An accepted queue with an unfinished task always shows a row in some list |
| ProgressTrailers.ReadTrailer | tool/check_commit_progress.py:38-44 | Parsing a written trailer line gives its kind, counts and percentage |
| ProgressTrailers.DecimalRoundTrip | tool/commit_with_progress.py:29-31 | Decimal numerals read back as the number written |
| ProgressTrailers.ReadWritten | tool/commit_with_progress.py:54-64 | Reading a message written with progress gives exactly that progress, for every accepted message and progress |
| ProgressReading.ShapeReads | tool/check_commit_progress.py:13-44 | Every line of the shape `Larenor-<kind>-Progress: done/total (percent%)` reads as its kind, values and percentage |
| ProgressReading.ReadHasShape | tool/check_commit_progress.py:13-44 | Every line read as a trailer has that shape |
| ProgressReading.NamesDecide | tool/check_commit_progress.py:47-51 | A message in which either name is not on exactly one line is refused for that |
| ProgressReading.TrailersDecide | tool/check_commit_progress.py:38-57 | With one line for each name a message is malformed unless both lines are trailers, and otherwise accepted, with their values, exactly when both totals are positive, no count exceeds its total and both percentages are right; the first line that is not so gives the refusal |
| CommitGate.ValidateSequence | tool/check_commit_progress.py:60-72 | Refuses exactly the empty range, a regression between neighbours, or a head that differs from the queue, in that order |
| CommitGate.ValidateGraph | tool/check_commit_progress.py:75-92 | Refuses exactly the empty range, a commit behind one of its parents in the range, or a differing head |
| CommitGate.SequenceVerdict | tool/check_commit_progress.py:60-72 | The refusals by the four counts: one goes down between neighbours, or the head is off the queue |
| CommitGate.GraphVerdict | tool/check_commit_progress.py:75-92 | The refusals by the four counts: one goes down from a parent in the range to its child, or the head is off the queue |
| CommitGate.MonotoneAlongAncestry | tool/check_commit_progress.py:75-92 | In an accepted range none of the four counts goes down along any ancestor path inside it |
| CommitGate.LinearAgrees | tool/check_commit_progress.py:60-92 | On a linear history both checks give the same verdict |
| JavaProperties.PropertiesValue | tool/android_signing.py:68-81 | The loop over UTF-16 units writes the escaped value, and fails exactly on lone surrogates |
| JavaProperties.DecodeUtf16 | tool/android_signing.py:68-70 | Decoding the units gives back every string without lone surrogates |
| JavaProperties.UnescapeEscape | tool/android_signing.py:68-81 | Unescaping by the java.util.Properties rules undoes the escaping |
| JavaProperties.EscapeShape | tool/android_signing.py:75-80 | Escaped text is ASCII, holds no line end and does not begin with white space, so no value is lost at its start or split over lines |
| JavaProperties.LoadPrint | tool/android_signing.py:130-138 | Loading a printed file gives back its entries, for any number of entries and all values |
| JavaProperties.KeyPropertiesRoundTrip | tool/android_signing.py:130-138 | For every four strings without lone surrogates loading gives `storeFile`, `storePassword`, `keyAlias` and `keyPassword` in this order, each with units that decode to its own string |
| ArtifactRetention.RankedFacts | tool/github_storage_cleanup.py:224-227 | The ranking holds exactly the available debug artifacts, newest first |
| ArtifactRetention.PositionIsRank | tool/github_storage_cleanup.py:224-227 | The element at position i has exactly i newer available ones |
| ArtifactRetention.OldMeansBehindThree | tool/github_storage_cleanup.py:224-227 | An artifact is offered for deletion exactly when at least three available ones are newer |
| ArtifactRetention.OldByFields | tool/github_storage_cleanup.py:224-227 | The same by the fields: an unexpired debug artifact with at least three unexpired ones created later, or together under a larger id |
| ArtifactRetention.OldInOrder | tool/github_storage_cleanup.py:224-227 | The artifacts are offered oldest first, those created together by smaller id |
| RetentionLog.PassedShape | tool/github_storage_cleanup.py:303-328 | In a pass only the last event may delete or be refused, and a deletion is justified by the pass's own complete listing |
| RetentionLog.PassProgress | tool/github_storage_cleanup.py:303-329 | One more pass keeps all deletions justified, their targets distinct, and nothing after a refusal |
| RetentionLog.CandidatesBehindThree | tool/github_storage_cleanup.py:289-293 | Every candidate was behind three newer available artifacts in the complete first listing |
| RetentionLog.CandidatesInOrder | tool/github_storage_cleanup.py:291-303 | The candidates of a survey come oldest first |
| RetentionLog.StopsAtFirstError | tool/github_storage_cleanup.py:324-328 | Every attempt before the last went through without any error, and the report is blocked by exactly the last one's |
| RetentionRun.GitHub.FetchPage | tool/github_storage_cleanup.py:202-212 | A page is taken exactly when it has the total seen before, within the limit, and the number of artifacts still due; otherwise its error is given |
| RetentionRun.GitHub.Snapshot | tool/github_storage_cleanup.py:200-221 | All pages in order, of one total and with as many artifacts, without repeated ids, or the error of the first page that does not fit; the error after the last page is unreachable |
| RetentionRun.GitHub.DeleteOne | tool/github_storage_cleanup.py:304-328 | A listing, then clock, artifact, run, clock and deletion as long as each leaves the candidate as planned; what it stopped at decides between deleted, skipped and each error |
| RetentionRun.Candidates | tool/github_storage_cleanup.py:291-293 | One question per possible artifact up to the first error; the candidates are exactly those whose run had completed, in order |
| RetentionRun.DeleteCandidates | tool/github_storage_cleanup.py:303-329 | One pass per candidate up to the maximum or the first error of any kind, and a report that tells exactly these |
| RetentionRun.Cleanup | tool/github_storage_cleanup.py:265-330 | Against any server: a survey and then passes up to the maximum or the first error of any kind, reported exactly, the i-th pass over the i-th candidate, oldest first; every deletion justified in its own pass, no id twice, only candidates of the first listing, none without apply, candidates equal deleted plus skipped plus remaining |
| StoragePreflight.ExamineSound | deploy/larenor-server/unified_package.py:405-428 | Both planners verify exactly the same path facts, although they check them in a different order |
| StoragePreflight.SoundMeans | deploy/larenor-server/unified_package.py:405-428 | A path fact is valid by its fields: a directory of the required owner with a mode of at most four octal digits, not writable by group or others, closed to both if private, and a device and availability |
| StoragePreflight.BundleCodes | deploy/larenor-server/deployment_bundle.py:689-715 | Which code the bundle planner gives, by the fields and the octal digits of the mode |
| StoragePreflight.PackageCodes | deploy/larenor-server/unified_package.py:405-428 | Which code the package planner gives, by the fields and the octal digits of the mode |
| StoragePreflight.DemandSnoc | deploy/larenor-server/deployment_bundle.py:711-719 | Each valid path adds what it requires to its own device alone |
| StoragePreflight.Check | deploy/larenor-server/deployment_bundle.py:689-725 | Each check's exact code; ready exactly when every path fact is valid and on each device the sum required is at most every reported availability |
| StoragePreflight.Overcommit | deploy/larenor-server/deployment_bundle.py:720-724 | The last loop fails exactly the checks on devices that are short |
| StoragePreflight.VerdictOrderFree | deploy/larenor-server/unified_package.py:403-440 | The verdict does not depend on the order of the requirements |
| AcceptanceHost.FixtureIgnoresOnlyCapacity | tool/unified_media_stack_managed_ci.py:1494-1526 | Through the wrapper the storage checks pass exactly when every path fact is valid |
| AcceptanceHost.ClaimedSnoc | tool/unified_media_stack_managed_ci.py:1501-1511 | Each path with a device and an availability adds what it requires to the sum of its device, valid or not |
| AcceptanceHost.FixtureFact | tool/unified_media_stack_managed_ci.py:1494-1526 | A fact seen through the wrapper is the host's, except that it offers at least the sum of its device; one path that cannot be inspected hides all |
| AcceptanceHost.AcceptanceFacts.Load | tool/unified_media_stack_managed_ci.py:1494-1526 | Inspects all paths or keeps nothing, and raises availability to the sum of the device |
| AcceptanceHost.AcceptanceFacts.Inspect | tool/unified_media_stack_managed_ci.py:1528-1533 | Gives the raised fact of a required path, and refuses any other path |
| AcceptanceHost.AcceptanceCheck | tool/unified_media_stack_managed_ci.py:1465-1533 | A preflight through the wrapper is refused exactly for bad requirements and ready exactly when all non-capacity checks pass on the real host |
| DirectoryPlan.Preferred | deploy/larenor-server/unified_package.py:319-326 | The first writable mount at `/data`, failing that at `/config`, then at `/app/config`, then anywhere; none exactly when no mount is writable |
| DirectoryPlan.DirectoryRequirements | deploy/larenor-server/unified_package.py:313-344 | One requirement per mounted path, sorted, with its only writer, its charges and its privacy; refused exactly when some path lacks a single writer |
| DirectoryPlan.MinimumCountedOnce | deploy/larenor-server/unified_package.py:327-336 | The requirements add up to the minima of the components with a writable mount, each counted once |
| OwnershipRules.PlannedExactly | deploy/larenor-server/unified_package.py:313-344 | A package is planned exactly when each mounted path has one user among the services that mount it writable |
| OwnershipRules.RequirementMeans | deploy/larenor-server/unified_package.py:327-344 | A requirement is owned by the user of every service that mounts its path writable, and private exactly when some service mounts it at `/secrets` |
| OwnershipRules.RequirementPaths | deploy/larenor-server/unified_package.py:327-344 | The required paths are exactly the mounted ones |
| OwnershipRules.PreferredMeans | deploy/larenor-server/unified_package.py:319-326 | The preferred mount is the one writable mount than which none has a better target and none earlier an equal one |
| OwnershipRules.ChargedSnoc | deploy/larenor-server/unified_package.py:334-336 | Each service charges the path of its preferred mount with its minimum, and no other path |
| OwnershipRules.MinimaSnoc | deploy/larenor-server/unified_package.py:319-336 | Each service with a writable mount and a minimum adds it to the whole |
| DeploymentManifest.Climb | deploy/larenor-server/deployment_bundle.py:467-471 | The loop collects exactly the directories between a path and the root, and ends |
| OwnershipRules.AncestorsMean | deploy/larenor-server/deployment_bundle.py:467-471 | The directories between a path and the root are those strictly below the root that the path is strictly below |
| DeploymentManifest.BuildManifest | deploy/larenor-server/deployment_bundle.py:451-503 | Owned paths are distinct, sorted, and exactly the relocated requirements, the connecting directories and the two recovery targets; disk is the minimum plus twice the larger of minimum and 1024 |
| OwnershipRules.OwnedRows | deploy/larenor-server/deployment_bundle.py:453-483 | The rows with every value: moved requirements with owner, minimum and privacy kept; the root and what lies between, owned by 10001, without minimum, private; two recovery targets owned by 10001 with the larger of total and 1024 |
| DeploymentManifest.AncestorClosed | deploy/larenor-server/deployment_bundle.py:466-475 | The data root is owned, and with every owned path below it its parent |
| DeploymentManifest.PlanDeployment | deploy/larenor-server/deployment_bundle.py:451-503 | From services to manifest: disk is the components' minima plus twice the larger of these and 1024, whatever the mounts; the rows are those that requirements read off the services lead to |
| CleanTree.LocalGivesDeep | deploy/larenor-server/deployment_bundle.py:327-337 | If every owned directory lists what is expected, everything beneath at any depth is owned |
| CleanTree.CleanMeans | deploy/larenor-server/deployment_bundle.py:317-337 | The local comparisons hold exactly when all entries beneath owned directories are owned and `/` is not among them |
| CleanTree.RootNeverClean | deploy/larenor-server/deployment_bundle.py:317-337 | With `/` among the paths its listing never matches |
| CleanTree.TooMany | deploy/larenor-server/deployment_bundle.py:330-332 | More than 256 entries always include one that is not owned, so the bound rejects nothing clean |
| CleanTree.Open | deploy/larenor-server/deployment_bundle.py:134-171 | Opens part by part and succeeds exactly on directories |
| CleanTree.Clean | deploy/larenor-server/deployment_bundle.py:306-349 | An error exactly for bad bounds, repeated paths or a path that is no directory; otherwise true exactly when every entry anywhere beneath an owned directory is owned |
| ConfigStore.FinalIsValidated | tool/volume_bootstrap_helper.py:256-355 | In every state of every history of runs, kills and power losses the final name is absent or holds exactly the bytes some run linked |
| ConfigStore.FinalStable | tool/volume_bootstrap_helper.py:273-276 | Once shown, the bytes stay the same until a power loss, whatever later runs install |
| ConfigStore.LossKeepsOrRemoves | tool/volume_bootstrap_helper.py:289-301 | A power loss leaves the same bytes or no file |
| ConfigStore.SettledForever | tool/volume_bootstrap_helper.py:299-301 | After a completed installation the bytes stay through all later runs and power losses |
| ConfigStore.SurvivesExactly | tool/volume_bootstrap_helper.py:294-301 | In every history the bytes shown survive all power losses exactly when a sync of the directory or a power loss came after they were linked, and likewise of the root after the directory was made |
| ConfigInstall.AlreadyInstalledMayVanish | tool/volume_bootstrap_helper.py:273-276 | Two runs of the helper, the first killed before its directory sync: the second answers "already installed", and a power loss removes the file |
| ConfigStore.LeftoverConflicts | tool/volume_bootstrap_helper.py:232-283 | In every history a leftover temporary file, alone or as a second link, makes every run a conflict |
| ConfigStore.SettledJudgement | tool/volume_bootstrap_helper.py:273-276 | After a completed installation a rerun is "already installed" and any other configuration a conflict |
| ConfigStore.VerdictMeans | tool/volume_bootstrap_helper.py:256-292 | In every history: installed exactly when neither name is there, already installed exactly when only the final name is there and shows these bytes, at most 4096 |
| ConfigInstall.Volume.ReadBounded | tool/volume_bootstrap_helper.py:208-219 | Reads the whole file however short the reads; unless a call fails, refuses exactly files over 4096 bytes |
| ConfigInstall.Volume.OpenExisting | tool/volume_bootstrap_helper.py:222-245 | None exactly without the name; contents only of a proper file with one link |
| ConfigInstall.Volume.WriteAll | tool/volume_bootstrap_helper.py:248-253 | However short the writes, the temporary file ends with the whole content; the run stops only at a failed or empty write |
| ConfigInstall.Volume.Publish | tool/volume_bootstrap_helper.py:293-301 | Link, unlink and sync in that order end in a state no power loss can undo, unless a call fails |
| ConfigInstall.Volume.ReadBack | tool/volume_bootstrap_helper.py:302-308 | Goes through only after reading exactly the installed bytes under the final name |
| ConfigInstall.Volume.Install | tool/volume_bootstrap_helper.py:256-355 | Unless one of its calls fails, the verdict is the one read off the starting state; "installed" and "already installed" follow a reading of exactly these bytes; unless the verdict is "installed", nothing changes; with failures the calls made are still allowed ones |
| ConfigInstall.LeftoverRun | tool/volume_bootstrap_helper.py:232-283 | In every history a run that finds a leftover temporary file changes nothing and, unless a call fails, answers "conflict" |
| ConfigInstall.RunAfterSuccess | tool/volume_bootstrap_helper.py:273-276 | After a run answered "installed", every later run changes nothing and, unless a call fails, answers "already installed" to the same bytes and "conflict" to others |
| ConfigInstall.RunAll | tool/volume_bootstrap_helper.py:358-414 | Any runs with any inputs and faults, and power losses between them, form a history of allowed calls with valid inputs and one recorded entry per run, so that the results above apply to it |

## Left out

- SQLite, Docker, git, HTTP and file system mechanics: atomic steps or adversarial answers.
- Argon2, SHA-256, HMAC and AES: hashes are values carrying what they hash; digests of documents are not modelled.
- The rate limiter is modelled apart from the session tables, with one window length for the service (every caller uses 60 seconds); the limit on concurrent password checks is not modelled.
- CheckLogin: user names arrive in lower case, as `login` makes them before its query.
- StoredCountIsExact: for windows of at most one hour, because the purge after one hour would remove current rows of longer ones.
- DeniedExactly: for windows of at most one hour, for the same reason.
- AtMostLimitAdmitted: for windows of at most one hour, for the same reason.
- `run_native` without an upgrade source; changes to containers and private state by others happen only between runs; a power loss after an unsynced rename counts as the write having or not having happened.
- RunAll: the journal runs start from a disk that agrees with its history, which `InstallJournal.BlankInv` shows of the empty one.
- ValidateQueue: requires what the field and schema checks guarantee (known references, group parents, finished checkpoints); those checks themselves are not modelled.
- The counts, status and rendering of the queue, and `next_actions` with a group filter beyond the ancestor test.
- ReadWritten: percentages come from one formatting function used on both sides and assumed to print digits, a point and one digit.
- Reading commits from git and the command-line wrapper of the commit gate.
- Test weights are exact non-negative reals, without floating-point rounding; whether a path is safe is an input; `select` and the weight file reader are not modelled.
- Cleanup: the repository lookup before the first listing and the package inventory, which issues no deletions, are not modelled; answers that fail to parse are refusals or invalid responses.
- The architecture and installation checks of the bundle preflight, which no storage check depends on; digests, receipts and the compose projection of the manifest.
- BuildManifest: requires distinct requirements below the canonical root, which `_directory_requirements` and the mount checks guarantee; paths are normalized strings.
- Clean: for a tree that does not change during the check, with paths already normalized.
- The contents of configurations are judged by one uninterpreted pattern; metadata checks are answers of the environment; two helpers never run at once.
- The Music Assistant backup, the publisher, release checks, CI scope filters, diagnostics and the other acceptance receipts: single-branch facts or plain I/O order.
