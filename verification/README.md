# Accelero: a verified model of the deployer's hard logic

Accelero deploys Compose stacks from git. It orders the services, replaces their containers one at a time, rolls
back what it already deployed when a later service fails, and lets a control loop retry when the world drifts away
from the compose file. This project models that logic in Dafny and proves what it keeps.

Docker is a list of containers changed one call at a time. Everything the program does not control (whether a call
succeeds, whether a container becomes healthy, the order a Go map is walked in, the clock, a random draw) is an input
or an arbitrary choice, so each theorem speaks of every outcome. For a deploy, the model produces the list of all the
states the host passes through; claims about availability are claims about that whole list, at every failure exit.

Code that works step by step appears twice: as a method over mutable state with loops, and as the function the method
is proved to compute. The theorems are about the function.

| file | what it holds |
|---|---|
| `Text.dfy` | ordering, searching, splitting, decimal text and white space shared by the other modules |
| `DependencyOrder.dfy` | transitive expansion and Kahn's algorithm |
| `Containers.dfy` | the Docker host and finding a service's containers by name |
| `Rollout.dfy`, `RolloutProofs.dfy`, `RolloutTheorems.dfy` | one service's rolling update: the function, the invariants, the theorems |
| `Deployer.dfy` | the same update as loops over a mutable host |
| `StackRollout.dfy`, `StackDeployer.dfy` | the deploy of a stack and its rollback, as functions with theorems and as loops |
| `StackStates.dfy`, `Provenance.dfy` | every state such a deploy passes through, and where its containers come from |
| `Drift.dfy`, `DriftAgreement.dfy` | the drift check and its service filter; whether it agrees with the deployer |
| `StackAgreement.dfy` | the same for a whole stack |
| `Breaker.dfy` | the circuit breaker and the reconcile cycle that drives it |
| `Approvals.dfy` | the approval gate as a persistent state machine |
| `SecretMerge.dfy`, `SecretHash.dfy`, `SecretsDrift.dfy` | secrets in the environment, their canonical encoding, and the life of the stored hash |
| `SecretsRun.dfy` | secrets and containers in one run: when silence means the containers are current |
| `Ports.dfy` | port strings and the guard against several replicas behind one host port |
| `Interpolate.dfy`, `DotEnv.dfy` | Compose interpolation and the `.env` parser |
| `RateLimit.dfy`, `ClientCache.dfy`, `Retry.dfy`, `LogFraming.dfy` | token bucket, racy client cache, backoff, log lines |

## What turned out not to hold

Some properties one would expect are false of the code. Each is kept as the code has it, with the exact condition
under which it does hold.

- The rolling update's floor of serving containers fails for a service without a health check whose containers are
  replaced: the wait accepts a container that has already exited (`internal/stack/deployer.go:1488-1492`).
  `FloorGuaranteedExactly` gives the condition.
- `Retry-After` can be one retry short, because the wait is cut to whole nanoseconds before it is rounded up to
  seconds. `HeaderSufficesExactly` says when, `HeaderCanBeShort` shows a run.
- A port in long form with an IPv6 host address, a ':' in its published text, or an odd protocol does not survive
  printing and parsing (`RoundTripExactly`), and the replicas guard misses host parts that hold a '/'
  (`GuardMissesExactly`, `GuardMissesSlashedHost`).
- After a successful deploy the drift check can still report: the deployer finds containers by name, the check by
  label (`SilentAfterEveryDeployExactly`, `UnlabelledReplicaDriftsForever`). A filter of white space alone makes the
  check cover everything and the deployer nothing (`FiltersAgreeExactly`).
- Silence does not mean that a deploy has nothing to do: the check compares images up to ":latest" and registry
  prefixes, the deployer letter by letter, and containers still starting may yet be replaced
  (`SilentExactlyWhenDeployIsIdle`, `SilentExactlyWhenDeployTouchesNothing`, `RespelledImageReplacedInSilence`).
- A deploy can take another service's containers: they are found by name, so in a stack with "db" and "db_backup" the
  first claims the second's. `OtherServiceSafeExactly` gives the condition, `WebTakesWebApp` an input. The theorems
  about whole stacks are for stacks without such names.
- A failed deploy need not leave the failing service as it was: nothing rolls it back (`FailsCleanlyExactly`). And a
  rollback has no floor of serving containers (`RollbackEmptiesService`).
- In a `.env` file an empty value takes no comment: KEY= # note assigns the text "# note"
  (`CommentBehindNothingIsValue`).
- Not every failed deploy is rolled back: a bind-mount error ends it as it stands. `BindErrorExactly` says when that can
  happen, `BindErrorStrandsEarlier` what then stays.
- No reported secrets drift does not mean every container has the current secrets. It does after a successful deploy
  begun under drift, until the next one begun under drift ends (`SilenceAfterDriftedDeploy`); a failed one can leave a
  stale replica behind, and the write undone hides it (`DetourStrandsExactly`).
- Merging secrets twice can change the result for lists the store cannot hold, with one name twice; the condition is
  in `MergeIdempotentExactly`.

Where comments and code disagree, the model follows the code: `internal/service/types.go:406-407` speaks of a
reproducible order but the sort also walks Go maps; `internal/stack/deployer.go:386-387` says the start time is reset,
which the store's update does not write (`internal/store/sqlite.go:689-697`); `internal/compose/dotenv.go:26-27` limits
keys to ASCII, the code accepts any Unicode letter or digit; `internal/stack/deployer.go:1084-1088` speaks of a gap
when nothing is kept, but the loop creates before it removes.

## Model

| member | source | states |
|---|---|---|
| DependencyOrder.InsertionSort | internal/service/types.go:413-418 | sorts the array in place: ordered, and a permutation of what it held |
| DependencyOrder.Names | internal/service/types.go:408-420 | the keys, each once, in order |
| DependencyOrder.NamesDeterministic | internal/service/types.go:406-420 | only one list meets that, so map order cannot show |
| DependencyOrder.Expand | internal/stack/deployer.go:849-866 | terminates on the shrinking set of unvisited names; marks only what the name reaches, and everything newly marked has its dependencies marked |
| DependencyOrder.ExpandAll | internal/stack/deployer.go:849-872 | the marked set is exactly what the targets reach |
| DependencyOrder.BuildEdges | internal/stack/deployer.go:874-892 | in-degrees count dependencies; the edge lists hold each dependent exactly once |
| DependencyOrder.Seed | internal/stack/deployer.go:894-900 | the queue starts with exactly the names of degree zero, each once |
| DependencyOrder.Release | internal/stack/deployer.go:905-914 | emitting a name keeps degrees equal to the count of dependencies not yet emitted, and the queue equal to the released names |
| DependencyOrder.Drain | internal/stack/deployer.go:902-914 | emits each name once, dependencies first, and leaves over only names with a dependency left over |
| DependencyOrder.LeftoverHasCycle | internal/stack/deployer.go:916-918 | whatever Kahn's algorithm leaves over contains a cycle |
| DependencyOrder.OrderedHasNoCycle | internal/stack/deployer.go:916-920 | a complete order rules out every reachable cycle |
| DependencyOrder.TopologicalSort | internal/stack/deployer.go:843-921 | for every graph and iteration order: an error exactly when the targets reach a cycle, else every reachable name once, dependencies first |
| Containers.SharedNameExactlyWhenClash | internal/stack/deployer.go:1670-1677 | two services can claim one container exactly when their names are equal or one is the other followed by '_' and more |
| Containers.MatchesExactly | internal/stack/deployer.go:1670-1677 | a name matches exactly when, without one leading slash, it is the service's name, alone or followed by '_' and anything |
| Containers.InstanceNameMatches | internal/stack/deployer.go:1091 | every name the deployer builds is found again under its service |
| Containers.OfFromOthers | internal/stack/deployer.go:1643-1666 | a service whose name does not clash sees none of the other's containers |
| RolloutProofs.AfterCreate | internal/stack/deployer.go:1436-1447 | a created container has a fresh id, is found first under its service, and leaves every other service as it was |
| Deployer.GetServiceContainers | internal/stack/deployer.go:1643-1666 | the containers claimed by name, in listing order |
| Deployer.StopAndRemove | internal/stack/deployer.go:1129-1137 | stop, then remove, each failure ignored; exact states passed through |
| Deployer.PartitionExisting | internal/stack/deployer.go:1031-1065 | the loop over existing containers keeps and replaces what the specification says, waiting for starting ones |
| Deployer.CreateReplica | internal/stack/deployer.go:1089-1112 | create, start and judge a replica; a refused one is torn down |
| Deployer.Turn | internal/stack/deployer.go:1089-1116 | one turn of the rolling loop: create, wait, remove one; a failure ends the run where the specification ends it |
| Deployer.RollOut | internal/stack/deployer.go:1089-1121 | the rolling loop and the removal of leftovers pass through exactly the specified states |
| Deployer.RunDeployService | internal/stack/deployer.go:983-1124 | deployService on a mutable host: same states, final host and error as the specification the theorems are about |
| Rollout.DesiredReplicas | internal/service/types.go:64-69 | never less than one replica |
| RolloutProofs.PartitionIds | internal/stack/deployer.go:1031-1065 | each examined container lands in exactly one of keep and replace |
| RolloutProofs.PartitionStates | internal/stack/deployer.go:1031-1065 | examining containers loses none and no serving one, in every state |
| RolloutProofs.PartitionKeepsFine | internal/stack/deployer.go:1033-1064 | what is kept runs the image and serves, and nothing is kept when secrets changed |
| RolloutProofs.RollWithin | internal/stack/deployer.go:1089-1121 | whatever fails from any turn on, every later state stays between floor and ceiling |
| RolloutTheorems.PlanHolds | internal/stack/deployer.go:1066-1082 | keep and replace together account for every container, keep never exceeds the replicas, everything unusable is on the removal list |
| RolloutTheorems.RollingUpdateStaysWithin | internal/stack/deployer.go:1031-1121 | if all existing containers serve, every state at every exit has at least min(existing, replicas) serving, and at most max(existing + 1, replicas) containers if removals succeed |
| RolloutTheorems.FloorGuaranteedExactly | internal/stack/deployer.go:1469-1509 | that floor holds for all honest outcomes exactly when there is a health check, enough containers stay in place, or the deploy is refused for its ports |
| RolloutTheorems.RollLeaves | internal/stack/deployer.go:1089-1121 | the loop's success leaves exactly the planned count, and whatever holds of the containers kept and of those launched holds of all |
| RolloutTheorems.DeployConverges | internal/stack/deployer.go:1026-1124 | success with working removals leaves exactly the desired replicas, all on the image, all newly configured if secrets changed |
| RolloutTheorems.DeployTouchesOnlyItsService | internal/stack/deployer.go:983-1124 | in every state of a deploy, whatever happens, the containers whose name the service does not claim are untouched |
| RolloutTheorems.OtherServiceSafeExactly | internal/stack/deployer.go:1643-1677 | deploys of one service leave another alone on every host and in every state exactly when neither name is the other's followed by '_' |
| RolloutTheorems.WebTakesWebApp | internal/stack/deployer.go:1670-1677 | deploying "web" removes the running replica "/web_app_1" of the service "web_app" |
| RolloutTheorems.FailsCleanlyExactly | internal/stack/deployer.go:1089-1112 | with working cleanups a failed deploy leaves its own service as it was, in all outcomes, exactly when it never creates more than one replica or is refused for its ports |
| RolloutTheorems.SeveralOnOnePortRefused | internal/stack/deployer.go:1002-1006 | two or more replicas and an entry with a ':' before its first '/': refused with nothing touched, whatever the host and the outcomes |
| RolloutTheorems.SeveralOnOneBindingRefused | internal/stack/deployer.go:1002-1006 | the same for an entry that binds a host port and has no ':' behind a '/' |
| RolloutTheorems.SucceedsExactly | internal/stack/deployer.go:983-1124 | some outcome lets the deploy succeed exactly in all other cases |
| RolloutTheorems.UnpreparedRefused | internal/stack/deployer.go:1008-1024 | without its dependencies' conditions, its image or the list of containers a deploy ends before it touches anything |
| RolloutTheorems.UninspectedBreaksOff | internal/stack/deployer.go:1042-1045 | a container on the right image that cannot be inspected breaks the deploy off with nothing created or removed |
| RolloutTheorems.RollNames | internal/stack/deployer.go:1089-1094 | the replicas a success creates are there, numbered on from the containers kept, with the job's configuration |
| RolloutTheorems.StopsBeforeRemoving | internal/stack/deployer.go:1129-1137 | a container that can be stopped is stopped, in a state of its own, before it goes |
| RolloutTheorems.KeptAt | internal/stack/deployer.go:1033-1064 | whatever settles, only a usable container is kept, and the k-th kept has at most k certain ones listed before it |
| RolloutTheorems.PlanKeepsStayers | internal/stack/deployer.go:1066-1074 | what the plan leaves in place could stay by the state before the deploy |
| RolloutTheorems.RollSpares | internal/stack/deployer.go:1089-1121 | the loop leaves alone whatever its removal list does not name |
| RolloutTheorems.SecondDeployDoesNothing | internal/stack/deployer.go:1026-1082 | a second deploy with unchanged secrets creates and removes nothing |
| StackDeployer.CaptureAll | internal/stack/deployer.go:567-580 | the pre-deploy state of every service of the order, from the untouched host |
| StackDeployer.RunRollbackService | internal/stack/deployer.go:1535-1589 | remove what is there, recreate the snapshot in order; exact states and error |
| StackDeployer.RunRollbackServices | internal/stack/deployer.go:1517-1532 | last deployed first; a failed rollback does not stop the next |
| StackDeployer.DeployLoop | internal/stack/deployer.go:602-639 | the deploy loop with its three ways out passes through exactly the specified states |
| StackDeployer.RunExecuteDeploy | internal/stack/deployer.go:532-650 | no change without targets or with a cycle; otherwise the specified deploy over a complete, dependency-first order |
| StackRollout.RollbackServiceRestores | internal/stack/deployer.go:1535-1589 | a working rollback leaves exactly the snapshot's configurations, with multiplicity, all running; an empty snapshot changes nothing |
| StackRollout.RollbackStops | internal/stack/deployer.go:1535-1560 | a rollback that cannot list or remove ends with nothing recreated |
| StackRollout.RecreateStops | internal/stack/deployer.go:1561-1589 | one that cannot create a container ends with exactly those before it recreated |
| StackRollout.UnpreparedStackUntouched | internal/stack/deployer.go:584-600 | without its networks and volumes a deploy of the stack ends before it touches anything |
| StackRollout.RollbackServicesRestore | internal/stack/deployer.go:1517-1532 | every rolled-back service is restored and every other one untouched |
| StackRollout.ExecuteDeployExits | internal/stack/deployer.go:602-639 | every exit of the loop leaves earlier, failing and later services as promised |
| StackRollout.FailureRollsBack | internal/stack/deployer.go:621-637 | when a service fails, earlier ones are restored (or left as deployed where nothing was captured) and later ones are exactly as before |
| StackRollout.BindErrorExactly | internal/stack/deployer.go:617-620 | some outcome of the other calls ends at service f by a bind-mount error exactly when f is the first whose paths fail and no earlier service is refused for its ports |
| StackRollout.BindErrorStrandsEarlier | internal/stack/deployer.go:617-620 | and then every earlier service can be fully deployed and stay so, with no rollback |
| StackRollout.BindErrorKeepsWhatWasDeployed | internal/stack/deployer.go:617-620 | whenever it is taken, this way out leaves earlier services as newly deployed and everything else as before |
| StackRollout.SuccessConvergesAll | internal/stack/deployer.go:602-639 | success converges every service of the order |
| StackStates.RollbackStates | internal/stack/deployer.go:1517-1589 | every state of a rollback lies in one service's own rollback from the host that starts on; those before it are as they were, those after it as their own rollbacks left them, others untouched |
| StackStates.TurnStarts | internal/stack/deployer.go:602-639 | the host a service's turn starts on: every service before it deployed and as its own deploy left it, all else untouched |
| StackStates.EveryState | internal/stack/deployer.go:602-639 | for all outcomes, every state before a rollback lies in one service's own deploy, earlier ones as theirs left them and later ones untouched; every state after lies in one service's rollback |
| StackStates.ChangeNeedsEarlierDeployed | internal/stack/deployer.go:602-639 | before a rollback, a service whose containers have changed has seen every defined service before it deployed with success |
| StackStates.BehindFailureUntouched | internal/stack/deployer.go:621-637 | in every state of the rollback, the services behind the failed one have exactly the containers they had |
| StackStates.DependenciesComeUpFirst | internal/stack/deployer.go:596-639 | until a rollback starts, a service has a new container only once every dependency's own deploy has succeeded and stands as that left it |
| StackStates.DeployedHasConverged | internal/stack/deployer.go:1026-1124 | and has converged, if its removals worked |
| StackStates.FailingServiceKeeps | internal/stack/deployer.go:621-637 | with a clean failure the failing service, too, has the containers it had, all through the rollback |
| StackStates.StackKeepsFloor | internal/stack/deployer.go:602-639 | until a rollback starts, every service of the stack keeps its floor of serving containers in every state |
| StackStates.RollbackEmptiesService | internal/stack/deployer.go:1535-1589 | a working rollback with something to restore passes through a state in which its service has no container |
| Drift.ImagesMatchIsEquivalence | internal/reconciler/reconciler.go:901-935 | image matching is equality of canonical references, hence an equivalence |
| Drift.TaggedMatchExactly | internal/reconciler/reconciler.go:901-935 | tagged references match only when equal, up to the three registry prefixes |
| Drift.SilentExactly | internal/reconciler/reconciler.go:567-645 | a service is silent exactly with the declared number of containers, each on the image, running and not unhealthy |
| Drift.CheckDrift | internal/reconciler/reconciler.go:566-736 | for every map order the report holds exactly the service, orphan and secrets items, each once, and says drift exactly when there is one |
| Drift.MismatchExactly | internal/reconciler/reconciler.go:606-617 | an image mismatch is reported exactly of a counted container whose image does not match |
| Drift.StoppedExactly | internal/reconciler/reconciler.go:618-629 | a stop exactly of a counted container that is not running |
| Drift.UnhealthyExactly | internal/reconciler/reconciler.go:630-644 | ill health exactly of a counted container that was inspected and is unhealthy |
| Drift.CountKindsExactly | internal/reconciler/reconciler.go:567-605 | missing, too few and surplus exactly by the number of counted containers |
| Drift.OtherKindsExactly | internal/reconciler/reconciler.go:647-657 | an undefined service exactly when a container counts for it and the compose file has none; changed secrets exactly when they differ |
| Drift.ServiceOfExactly | internal/reconciler/reconciler.go:940-952 | a container belongs to its label's service, or without one to what precedes the first '_' of its name |
| DriftAgreement.SilentAfterEveryDeployExactly | internal/reconciler/reconciler.go:566-645 | the check is silent after every successful deploy exactly when secrets had changed or every container that can stay is labelled (or the ports forbid the deploy) |
| DriftAgreement.SilentAfterDeployExactly | internal/reconciler/reconciler.go:566-645 | after one successful deploy it is silent exactly when everything kept or created is labelled |
| DriftAgreement.SilentAfterFullReplacement | internal/reconciler/reconciler.go:566-645 | so always after a full replacement |
| DriftAgreement.UnlabelledReplicaDriftsForever | internal/reconciler/reconciler.go:566-580 | an unlabelled container on the right image: deploying changes nothing and the service is reported missing |
| DriftAgreement.SilentExactlyWhenDeployIsIdle | internal/stack/deployer.go:1033-1082 | a deploy passes through no new state exactly when the check is silent, images are spelled alike and nothing is starting |
| DriftAgreement.SilentExactlyWhenDeployTouchesNothing | internal/stack/deployer.go:1048-1061 | with containers starting: it touches nothing exactly when, besides, each of them settles |
| DriftAgreement.RespelledImageReplacedInSilence | internal/stack/deployer.go:1038 | "image:latest" running and "image" declared: silence, and the deploy replaces the container |
| StackAgreement.DoneDeployedAll | internal/stack/deployer.go:602-639 | after success every service of the order is as its own deploy left it |
| StackAgreement.DoneOldOrCreated | internal/stack/deployer.go:602-639 | and every container of the host was there before or was created for a service of the order |
| StackAgreement.StackSilentAfterDeploy | internal/reconciler/reconciler.go:566-736 | after a successful deploy of a stack whose services are ready, with no other running and no secret written since, nothing is reported |
| StackAgreement.ClosedFilterDeploysWhatIsChecked | internal/stack/deployer.go:849-872 | with a filter closed under dependencies the deployer deploys exactly what the check looks at |
| StackAgreement.CheckSilentAfterDeploy | internal/reconciler/reconciler.go:566-736 | both together, from the filter and the dependency order to a check that reports nothing |
| Drift.FilterServices | internal/reconciler/reconciler.go:876-896 | keeps exactly the listed services, all of them for a blank filter, unchanged |
| Drift.ResolveServiceFilter | internal/stack/deployer.go:817-839 | the targets are exactly the listed services that exist, all of them for an empty filter |
| Drift.FilterOfMore | internal/reconciler/reconciler.go:880-889 | a comma adds the names behind it; a blank part names nothing |
| Drift.FilterOfOne | internal/reconciler/reconciler.go:880-889 | one name, whatever white space stands around it |
| Drift.FiltersAgreeExactly | internal/reconciler/reconciler.go:876-896 | the two filters select the same services except for a non-empty blank filter |
| Breaker.CircuitBreaker.Allow | internal/breaker/breaker.go:87-104 | the new entries and the answer, as the transition function has them |
| Breaker.CircuitBreaker.RecordSuccess | internal/breaker/breaker.go:107-117 | the entry closes with no failures; nothing else changes |
| Breaker.CircuitBreaker.RecordFailure | internal/breaker/breaker.go:125-149 | the new entries, and true only on the step from closed to open |
| Breaker.KeysAreIndependent | internal/breaker/breaker.go:87-149 | for any interleaving a key's entry depends only on the calls about that key |
| Breaker.TripsSeparatedBySuccess | internal/breaker/breaker.go:118-149 | two trips of a key always have a recorded success of that key between them |
| Breaker.SoundInRun | internal/breaker/breaker.go:87-149 | after every interleaving of calls on a new breaker a closed entry is below the threshold |
| Breaker.ClosedExactly | internal/breaker/breaker.go:87-149 | for any calls on a new breaker a key's count is that of its failures since its last success, and it is closed exactly below the threshold |
| Breaker.TripsExactly | internal/breaker/breaker.go:125-149 | the breaker trips with the failure that reaches the threshold and with no other |
| Breaker.AllowsExactly | internal/breaker/breaker.go:87-104 | an open key is refused until the cooldown has passed, then admitted as a trial; all others are admitted |
| Breaker.ReconcileOnce | internal/reconciler/reconciler.go:355-474 | one tick asks, deploys and records exactly once, and deploys exactly a loaded, active or failed, drifted stack set to deploy by itself that the breaker admits |
| Breaker.DeploysExactly | internal/reconciler/reconciler.go:371-466 | the same of the tick function, over the statuses themselves |
| Breaker.TickWrites | internal/reconciler/reconciler.go:371-486 | a paused or deploying stack's tick changes nothing, a clean check or a success closes the entry, a failure counts one and reopens a trial |
| Breaker.FailedDeploysBounded | internal/reconciler/reconciler.go:413-466 | over any run, at most threshold + T / cooldown failed auto-deploys in time T without a success |
| Breaker.FailedDeploysBoundedInRun | internal/reconciler/reconciler.go:413-466 | the same after any calls on a new breaker |
| Approvals.Deployer.GetPendingApproval | internal/store/sqlite.go:491-499 | the most recent pending record of the stack, if any |
| Approvals.Deployer.RunDeploy | internal/stack/deployer.go:219-284 | answers exactly when the stack exists and a record is held already, or a new one can be held or begun; held when the stack asks for approval, else running; a reused approval changes nothing |
| Approvals.Deployer.ApproveDeployment | internal/stack/deployer.go:300-319 | succeeds exactly for a held record of a known stack on a reachable host, and then that record is running |
| Approvals.Deployer.RejectDeployment | internal/stack/deployer.go:323-344 | succeeds exactly for a held record |
| Approvals.Deployer.ExpirePendingApprovals | internal/stack/deployer.go:349-382 | the sweep, in any order, rejects exactly the records the specification does and counts them |
| Approvals.NextKeepsInvariant | internal/stack/deployer.go:219-474 | every step keeps: at most one pending record per stack, whatever executes is in progress, none saved as rolled back |
| Approvals.FinishWrites | internal/stack/deployer.go:449-470 | the end of a run: completed exactly on success, else failed with the message, out of the runs, all other records as they were |
| Approvals.UnreadableSecretsWrite | internal/stack/deployer.go:433-437 | a run that cannot read the secrets stops and leaves its record as it stands |
| Approvals.ApproveWrites | internal/stack/deployer.go:300-425 | an approval starts the record, or fails it when the host cannot be reached |
| Approvals.DeployWrites | internal/stack/deployer.go:219-284 | a deploy's new record: held, running or failed, exactly by the stack's flag and the host |
| Approvals.RejectWrites | internal/stack/deployer.go:323-344 | a rejection's status, time and reason, and nothing else |
| Approvals.StartedAtStays | internal/store/sqlite.go:689-697 | when and for which stack a record was created is never rewritten |
| Approvals.ExpiryExactly | internal/stack/deployer.go:349-382 | expiry rejects exactly the saved pending records not newer than the cutoff, with time and reason |
| Approvals.CleanupExactly | internal/store/sqlite.go:699-706 | retention deletes exactly the old completed and failed records |
| Approvals.CompletedWasFinished | internal/stack/deployer.go:449-470 | over every run, a completed record was brought there by the successful end of its own run |
| Approvals.FailedHadReason | internal/stack/deployer.go:388-470 | and a failed one by its failed end, or by a start that could not reach the host |
| Approvals.Reachable | internal/stack/deployer.go:219-474 | so it holds in every reachable state |
| Approvals.HeldGoesNowhereElse | internal/stack/deployer.go:300-382 | without its approval a held record stays held or is rejected, and is never removed |
| Approvals.SettledStays | internal/stack/deployer.go:300-474 | rejected, completed and failed are never left; only cleanup removes such a record |
| Approvals.HeldUntilApproved | internal/stack/deployer.go:252-382 | over any run a held record is approved, or to the end held or rejected |
| Approvals.HeldThenExecutedWasApproved | internal/stack/deployer.go:300-319 | a record once held executes only if it was approved in between |
| Approvals.RunsStartProperly | internal/stack/deployer.go:219-319 | a run starts by approval, or by a deploy of a stack that asks for none |
| SecretMerge.MergeSecretsIntoEnv | internal/stack/secrets.go:28-68 | the merged environment, built by the program's three loops |
| SecretMerge.SecretsWin | internal/stack/secrets.go:10-68 | the last entry of a key is the secret's if there is one, else the compose entry |
| SecretMerge.ComposePartStable | internal/stack/secrets.go:28-68 | compose entries keep their keys by position; the others are unchanged |
| SecretMerge.MergeIdempotentExactly | internal/stack/secrets.go:28-68 | merging the same secrets again changes nothing exactly when each has its name's final value or a name the compose part takes |
| SecretMerge.MergeIdempotent | internal/store/sqlite.go:244 | so always for one secret a name, as the store's primary key ensures |
| SecretsDrift.WriteIsOneChange | internal/store/sqlite.go:763-792 | a write gives its name its value and changes no other |
| SecretsDrift.DeletionIsOneChange | internal/store/sqlite.go:825-838 | a deletion takes its name away and changes no other |
| SecretHash.HashStackSecrets | internal/store/secret_hash.go:27-44 | the digest of the canonical encoding, empty for no secrets |
| SecretHash.PrefixedDecodes | internal/store/secret_hash.go:40-41 | a length-prefixed text can be cut off in only one way |
| SecretHash.EncodeInjective | internal/store/secret_hash.go:39-42 | equal encodings list equal names with equal values |
| SecretHash.EncodingExactly | internal/store/secret_hash.go:27-44 | encodings are equal exactly for the same names, equally often, with the same final values: order never matters |
| SecretHash.DistinctEncodingExactly | internal/store/secret_hash.go:27-44 | for distinct names, exactly for equal maps |
| SecretHash.HashExactly | internal/store/secret_hash.go:27-44 | without collisions the hash tells apart exactly the different maps, the empty one included |
| SecretsDrift.RunFaithful | internal/stack/deployer.go:433-468 | over every run the stored hash is that of the last successful snapshot |
| SecretsDrift.ReportedExactly | internal/reconciler/reconciler.go:712-732 | over every run drift is reported exactly when the current map differs from the last successful snapshot |
| SecretsDrift.FailureNeverClears | internal/stack/deployer.go:433-468 | failed deploys never clear a report |
| SecretsDrift.MidDeployWriteReported | internal/stack/deployer.go:427-468 | a write during a deploy is reported after it |
| SecretsDrift.DriftedDeployDelivers | internal/stack/deployer.go:440-468 | a deploy that started under drift and succeeds leaves only containers whose environment has the snapshot's values |
| SecretsDrift.FailedDeployLeavesNewReplica | internal/stack/deployer.go:1089-1112 | a deploy that dies after its first replica leaves that replica |
| Provenance.FromDeploy | internal/stack/deployer.go:983-1124 | however a deploy ends, each container of the host was there before it or created by it |
| Provenance.FromRollback | internal/stack/deployer.go:1535-1589 | however a rollback ends, each container was there before it or is one of the snapshot |
| SecretsRun.ExecuteDeployAllowed | internal/stack/deployer.go:602-639 | however a deploy of the stack ends, each container of a service was configured as one before it or by this deploy |
| SecretsRun.SilenceMeansCurrent | internal/reconciler/reconciler.go:712-732 | over every run of writes, deploys and container changes: silence means the environment of every container of every current service is a deployed compose environment with exactly the table's secrets over it |
| SecretsRun.SilenceAfterDriftedDeploy | internal/stack/deployer.go:440-468 | so after a successful deploy begun under drift, until the next one begun under drift ends: the compose environment is that deploy's or a later one's, and no deleted secret is left |
| SecretsRun.DetourStrandsExactly | internal/stack/deployer.go:440-468 | from every such state, a write, a deploy and the write undone are safe in all outcomes exactly when the deploy cannot start its first service; otherwise it can fail and leave a stale replica unreported |
| Ports.RoundTripExactly | internal/service/types.go:167-206 | parsing inverts printing exactly when host address and published text have no ':' and the protocol looks like one |
| Ports.ShortFormExactly | internal/service/types.go:167-206 | when printing is an error, and otherwise the text, field by field |
| Ports.FormsParse | internal/utils/utils.go:164-195 | container port, host port and host address from the right, with "tcp" for want of a protocol |
| Ports.ProtocolFormParses | internal/utils/utils.go:167-177 | a protocol behind '/' replaces "tcp" and changes nothing else |
| Ports.NumberIsNoProtocol | internal/utils/utils.go:167-177 | a number behind the last '/' is no protocol |
| Ports.NoTargetFails | internal/utils/utils.go:191-193 | no container port is an error |
| Ports.FourFieldsFail | internal/utils/utils.go:187-189 | more than three fields are an error |
| Ports.FullFormBinds | internal/utils/utils.go:118-151 | what a full entry binds and exposes, by what the library accepts |
| Ports.ParsedFieldsPlain | internal/utils/utils.go:164-195 | no parsed address field holds a ':', and the protocol is well-formed |
| Ports.HasStaticPublishedPort | internal/service/types.go:74-88 | true exactly when some entry has a ':' before its first '/' |
| Ports.MapPorts | internal/utils/utils.go:112-154 | each port gets exactly the bindings of its entries, in order; the exposed ports are exactly those of valid entries and include every bound one |
| Ports.PublishedExactly | internal/service/types.go:74-88 | an entry counts as published exactly when it has a ':' with no '/' before it |
| Ports.GuardMissesExactly | internal/service/types.go:74-88 | the guard misses a binding entry exactly when its first '/' precedes its first ':' |
| Ports.GuardMissesNothing | internal/stack/deployer.go:1002 | where no ':' follows a '/', every list that binds a host port trips the guard |
| Ports.GuardMissesSlashedHost | internal/utils/utils.go:112-195 | for a host part with '/' a binding is emitted that the guard does not see |
| Interpolate.Expand | internal/compose/interpolate.go:48-76 | the one-pass scan computes the rendering of the tokens, or their first error |
| Interpolate.ScanFollowsPattern | internal/compose/interpolate.go:27-34 | the scanner takes a token exactly where the pattern matches, of exactly its length |
| Interpolate.TokensSpellInput | internal/compose/interpolate.go:48-76 | the tokens spell the input: nothing dropped or read twice |
| Interpolate.ModifierTable | internal/compose/interpolate.go:87-136 | the result of every modifier, with and without ':' |
| Interpolate.MalformedExactly | internal/compose/interpolate.go:36-43 | a braced reference is malformed exactly when it is neither a name nor a name with a modifier |
| Interpolate.BareInsertedVerbatim | internal/compose/interpolate.go:66-69 | a bare name between texts gives its value, or nothing when unset, verbatim, and the same as with braces |
| Interpolate.LoneDollar | internal/compose/interpolate.go:27-34 | a '$' that begins no form stands for itself |
| Interpolate.QuotedPrefix | internal/compose/interpolate.go:48-76 | a text with its '$' doubled comes out as itself in front of anything |
| Interpolate.QuotingInverts | internal/compose/interpolate.go:48-76 | for every text and variables, expanding the doubled text returns it |
| Interpolate.ValueInsertedVerbatim | internal/compose/interpolate.go:48-76 | a reference is replaced by its value, never expanded again |
| Interpolate.DependsOnReferencesOnly | internal/compose/interpolate.go:48-76 | the result depends only on the variables referenced |
| Interpolate.ErrorsExactly | internal/compose/interpolate.go:48-136 | an error exactly when some braced token is malformed or its required variable missing, and the leftmost is reported |
| DotEnv.ParseDotEnv | internal/compose/dotenv.go:46-92 | the line loop computes the specified variables, or the first wrong line and why |
| DotEnv.ParseDoubleQuoted | internal/compose/dotenv.go:116-155 | the pass with an escape flag reads the body up to its closing quote |
| DotEnv.ParseUnquoted | internal/compose/dotenv.go:173-183 | cuts at the first '#' after a blank, then trims |
| DotEnv.CommentStart | internal/compose/dotenv.go:176-181 | the first blank followed by '#', or the end |
| DotEnv.BareReads | internal/compose/dotenv.go:100-114 | an unquoted value means itself, whatever blanks stand around it and whatever comment follows |
| DotEnv.SimpleIsBare | internal/compose/dotenv.go:173-183 | every text without blanks, quotes and '#' is such a value |
| DotEnv.BlankReads | internal/compose/dotenv.go:101-104 | blanks alone read as the empty text |
| DotEnv.CommentBehindNothingIsValue | internal/compose/dotenv.go:173-183 | but a comment behind nothing is the value |
| DotEnv.SingleQuotedReads | internal/compose/dotenv.go:157-167 | a single-quoted value is taken as it stands, before white space and a comment |
| DotEnv.DoubleQuotedReads | internal/compose/dotenv.go:116-155 | a double-quoted one with its escapes read |
| DotEnv.EscapesExactly | internal/compose/dotenv.go:120-141 | what the escapes are; any other backslash stays |
| DotEnv.OpenQuoteFails | internal/compose/dotenv.go:157-161 | a quote that is not closed is an error |
| DotEnv.SingleQuoteTailFails | internal/compose/dotenv.go:162-165 | text behind a closed single quote is an error |
| DotEnv.DoubleQuoteTailFails | internal/compose/dotenv.go:142-150 | so is text behind a closed double quote |
| DotEnv.TextBehindQuote | internal/compose/dotenv.go:142-150 | such text is anything whose first character that is not white space is not '#' |
| DotEnv.ValidExactly | internal/compose/dotenv.go:185-201 | keys are a letter or '_' and then letters, digits and '_' |
| DotEnv.KeyedLine | internal/compose/dotenv.go:56-83 | a key, '=' and a value assigns what the value reads as, blanks in front or behind the key changing nothing |
| DotEnv.ExportedLine | internal/compose/dotenv.go:63-67 | nor does "export " in front |
| DotEnv.BlankAndCommentLines | internal/compose/dotenv.go:58-61 | blank lines and comment lines assign nothing |
| DotEnv.BadLines | internal/compose/dotenv.go:69-77 | a line without '=', without a key or with an invalid one is an error |
| DotEnv.LineByLine | internal/compose/dotenv.go:46-92 | a document is read line by line, numbered from one, a carriage return before the newline not counted, up to the scanner's limit |
| DotEnv.PlainAssignment | internal/compose/dotenv.go:46-92 | KEY=v, with blanks and a comment or without, parses to exactly that variable |
| DotEnv.EscapeReads | internal/compose/dotenv.go:116-155 | an escaped text reads back as itself, leaving what follows the quote |
| DotEnv.PrintedLineReads | internal/compose/dotenv.go:56-83 | a printed line assigns exactly its key and value |
| DotEnv.RoundTrip | internal/compose/dotenv.go:46-92 | printing assignments and parsing gives exactly them, within the line limit |
| DotEnv.AssignedLast | internal/compose/dotenv.go:83 | of repeated keys the last assignment wins |
| DotEnv.Listing | internal/compose/dotenv.go:46-92 | every map has such a list of assignments, so the round trip covers every map |
| DotEnv.MapRoundTrip | internal/compose/dotenv.go:46-92 | printing any map with valid keys and parsing gives the map back |
| RateLimit.RateLimiter.Allow | internal/middleware/ratelimit.go:64-99 | the new buckets and the verdict, as the transition function has them |
| RateLimit.AdmissionsBounded | internal/middleware/ratelimit.go:78-99 | in any window a key is admitted at most burst + rps * T times, whatever the other keys do |
| RateLimit.AdmissionsBoundedInRun | internal/middleware/ratelimit.go:64-99 | the same for any window of any run from an empty limiter |
| RateLimit.NewKeyHasItsBurst | internal/middleware/ratelimit.go:64-76 | of any number of calls of a new key at one instant exactly the first `burst` are admitted |
| RateLimit.RefillsExactly | internal/middleware/ratelimit.go:82-89 | a bucket has what it had and rps tokens a second since, but never more than the burst |
| RateLimit.OtherKeysUnaffected | internal/middleware/ratelimit.go:64-76 | a call leaves other keys' buckets alone |
| RateLimit.NextCall | internal/middleware/ratelimit.go:78-99 | after a refusal the next call is admitted exactly when the exact wait has passed |
| RateLimit.RefusedMeanwhile | internal/middleware/ratelimit.go:78-99 | calls that come too early do not delay the key |
| RateLimit.RetryExactly | internal/middleware/ratelimit.go:78-99 | after a refusal with wait d, every call before d is refused, every one after it admitted, and one on the dot exactly when nothing was cut off |
| RateLimit.HeaderSufficesExactly | internal/middleware/ratelimit.go:121-125 | waiting the header's seconds suffices except when the wait was cut to a whole number of seconds; one nanosecond more always does |
| RateLimit.HeaderCanBeShort | internal/middleware/ratelimit.go:121-125 | a run in which the header is too short |
| ClientCache.Manager.CheckCached | internal/dockerhost/manager.go:64-73 | the first lock section answers from the cache or goes on, as the step does |
| ClientCache.Manager.InstallOrYield | internal/dockerhost/manager.go:88-97 | the second lock section keeps whichever client landed first and closes the other |
| ClientCache.Manager.Close | internal/dockerhost/manager.go:119-126 | closes and forgets every cached client, in any order |
| ClientCache.Reachable | internal/dockerhost/manager.go:63-126 | the cache invariant holds after every interleaving |
| ClientCache.OneClientPerHost | internal/dockerhost/manager.go:63-98 | between two closes all calls for a host get the same client |
| ClientCache.LoserClosedNeverReturned | internal/dockerhost/manager.go:90-95 | the losing client is closed once and handed to nobody |
| ClientCache.NoClientLeaks | internal/dockerhost/manager.go:63-126 | every client built is closed, cached or held, and only one of these |
| ClientCache.HandedClientIsOpen | internal/dockerhost/manager.go:63-126 | a client handed out stays open until the next close |
| Retry.Do | internal/retry/retry.go:60-109 | the loop makes exactly the specified calls and sleeps and returns the specified error |
| Retry.BackoffDuration | internal/retry/retry.go:116-130 | the delay is never negative, above the doubled base, or above the cap |
| Retry.StopsWhenItShould | internal/retry/retry.go:60-109 | at most max(1, MaxAttempts) calls, none after a success, a permanent error, a context error or a done context |
| Retry.EndsForAReason | internal/retry/retry.go:60-109 | a run ends only on its last result, its budget or its context, and returns its last result |
| Retry.DoReports | internal/retry/retry.go:43-109 | nil exactly when the last call succeeded; permanent errors come back unwrapped |
| Retry.WrappedOutcomes | internal/retry/retry.go:43-95 | a mark or a context error ends a run however deep it is wrapped; any other error is transient |
| Retry.GoesOnUntil | internal/retry/retry.go:60-109 | over transient failures calls go on up to the one that ends the run, or to the whole budget |
| Retry.EveryDelayPossible | internal/retry/retry.go:116-130 | every delay from zero to the capped doubled base can be drawn |
| Retry.NoDelayWithoutBase | internal/retry/retry.go:116-119 | without a base delay there is none |
| Retry.TotalSleepBounded | internal/retry/retry.go:116-130 | total sleep at most (n-1) * MaxDelay and BaseDelay * (2^(n-1) - 1) |
| LogFraming.LogWriter.Write | internal/handler/handler.go:2265-2283 | sends exactly the complete non-empty lines, keeps the rest and returns the bytes taken; on a failure zero, and exactly the frames accepted before it |
| LogFraming.WriteAll | internal/handler/handler.go:2265-2283 | successive writes send the lines of the whole stream |
| LogFraming.FramesAreParts | internal/handler/handler.go:2265-2283 | the frames are the non-empty parts of the stream split at its newlines, in order, and the buffer is the last part |
| LogFraming.FramesAreLines | internal/handler/handler.go:2265-2283 | no frame is empty or holds a newline |
| LogFraming.RemainderIsTail | internal/handler/handler.go:2265-2283 | the buffer holds the text after the last newline |
| LogFraming.FramesSplit | internal/handler/handler.go:2265-2283 | cutting a stream in two changes neither its frames nor its remainder |
| LogFraming.ChunkingIrrelevant | internal/handler/handler.go:2265-2283 | the writer's state depends on the bytes, not on how they were cut |

## Left out

- Docker, git, YAML, SQLite, HTTP, Vault and the hash function itself: foreign code; a digest is an arbitrary collision-free function.
- Container configuration (`internal/stack/deployer.go:1294-1435`): field copying, one opaque part of a configuration beside image, labels and environment.
- Image resolution and waiting for dependency conditions: one flag saying whether they succeed.
- Networks and volumes, in the deployer and in the drift check: single-branch checks.
- A second name a container may have: every container has one.
- The health of an existing container changing by itself in the middle of a deploy: only containers the deployer waits for change.
- Overlapping deploys of one service (excluded by a mutex), overlapping stack updates, and overlapping approval requests, whose check and create are separate store calls.
- Failed writes to the deployments table, except in the expiry sweep.
- Stack status and last-deployed time: not part of the secrets or approval claims.
- Unique replica labels, and drift of a whole stack after a filtered deploy: not true of the code.
- Determinism of the whole deploy order: map iteration can change it.
- Floating-point rounding: tokens and rates are reals. Overflow of Go durations: delays are integers, and a backoff that overflows without a cap is not modelled.
- Invalid UTF-8 in a `.env` file, and which code points are letters or digits: the latter are parameters assumed not to be white space, '=' or '#'.
- Audit, notifications, metrics, logging, timers, the shell of HTTP handlers.
- SecretMerge.SecretsWin: for secret names without '=', which the API's name check (`internal/handler/handler.go:1378`) ensures.
- Drift.CheckDrift: the network and volume items are not modelled, nor the order of the report, which follows Go maps.
- DriftAgreement.SilentAfterEveryDeployExactly: for hosts on which every container labelled for the service also bears its name, as those the deployer creates do.
- DriftAgreement.SilentExactlyWhenDeployIsIdle: for services whose labels and names select the same containers; SilentAfterEveryDeployExactly covers the others.
- StackStates.EveryState: for stacks none of whose service names is another's followed by '_'; `OtherServiceSafeExactly` says why.
- SecretsRun.SilenceMeansCurrent: for stacks none of whose service names is another's followed by '_'.
