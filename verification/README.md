# Verification of the stack-operations tooling

This Dafny project models the parts of the Odoo stack tooling whose correctness is a matter of
algorithm, protocol or format, and proves what they promise. `dafny verify dfyconfig.toml`
checks all of it. Code that works by updating state is modelled by classes and methods with
loops, each proved against a specification function; the properties of the system are lemmas
about those functions. Threads, other people pushing and other processes are modelled as steps
interleaved in any way, and what is proved holds for every run.

## What is modelled

| file | part of the system |
|---|---|
| `Sharding.dfy`, `LptBounds.dfy` | the Longest-Processing-Time planners of the test kit, by module and by class, and Graham's bounds for them: 2 - 1/m for list scheduling, 3/2, and 4/3 - 1/(3m), which every number of shards reaches |
| `RoundRobin.dfy` | the unweighted planner, which is the weighted one on equal weights |
| `HostResources.dfy` | shard requests taking production-clone and browser semaphores on worker pools |
| `TemplateLock.dfy`, `TemplateOutcomes.dfy` | the two double-checked template locks, and what can come of asking them |
| `RunOutcome.dfy` | from one shard's process result to the exit code of a run |
| `TestSlicer.dfy`, `SlicerTargets.dfy` | method slicing: the requests, the two slicers, their composition, and which modules they take tests from |
| `EnvReferences.dfy`, `EnvMeaning.dfy`, `EnvResolver.dfy` | what `${NAME:-default}` values mean, where each reference gets its text from, and the resolver with its cache, its `seen` set and its fixpoint loop |
| `ResolverRounds.dfy`, `ResolverRuns.dfy`, `ResolverKnots.dfy`, `ResolverEnds.dfy` | on which maps that resolver ends, with any cycles, and what it then gives |
| `DokployProfiles.dfy`, `ProfileChains.dfy`, `ProfileResolver.dfy`, `ProjectNames.dfy` | profile inheritance with memo, cycle detection, deep merge and project aliases |
| `ShipProtocol.dfy`, `ShipOutcomes.dfy` | ship and promote with other actors pushing at any time: what every run keeps, and which commands can deploy at all |
| `PyStrings.dfy`, `EnvMaps.dfy`, `EnvText.dfy` | the Dokploy env text: parser, printer, round trips |
| `Reconcile.dfy`, `Convergence.dfy`, `RepeatedRuns.dfy` | the env part of reconcile, what a second reconcile finds, and when repeated ones end |
| `StackEnvFile.dfy`, `EnvComments.dfy` | the stack's env file: parser and sorted printer, quotes and comments |
| `ModuleClosure.dfy` | which modules an AUTO update touches |
| `WorkflowLock.dfy`, `StaleLock.dfy` | the exclusive-create lock of the data workflows, the deployments that take it and the launchers that decide on their list to clear it |
| `Percentile.dfy` | the interpolated percentile of the gate benchmark, over exact reals |
| `StableSort.dfy`, `Names.dfy`, `Counting.dfy`, `Wrappers.dfy` | Python's `sorted`, string order, sizes and repeats, `Option` and `Result` |

## Where the code does not do all it seems to

* **One reconcile is not always enough.** A name that itself begins with `export ` (the line
  `export export NAME=x`) is printed as `export NAME=x` and read back as `NAME`. Such a line can
  set a desired variable back, or bring in a prunable one that only the next reconcile prunes.
  `ConvergesIff` says exactly when the second run finds nothing; `NestedExportReverts` and
  `NestedExportIsPrunedLate` show both failures. Repeated runs always end: each takes one `export `
  off every nested name, so one more run than the deepest nesting is enough (`ReconcileEnds`). This
  is for clean desired entries; one that no line can hold, such as a value with a trailing blank,
  is written again by every run (`UntidyNeverEnds`).
* **The pinned commit is not always what is deployed.** The push moves the branch from exactly
  the tip that was seen to the pinned commit, but the deployment that follows names only the
  branch: a push in between wins (`DeployRace`). The deployed tip is the pinned commit if and
  only if the last push by somebody else since the sync, if any, left the branch there
  (`DeployedIsPinnedIff`).
* **The settings merge is not associative** when an `env` that is no table stands between two
  tables and the first of these has a variable the last one lacks (`MergeAssociativeIff`; three
  settings that show it in `MergeOrderMatters`).
* **A project alias does not override an inherited project.** Once an ancestor's alias has become a
  `project_name`, a descendant's alias is rejected as defining both, unless the descendant also
  blanks the inherited name (`OverrideAcceptedIff`; two profiles that show it in
  `AliasDoesNotOverride`). `ResolveSucceedsIff` reads off the raw tables which chains are accepted.
* **Clearing the workflow lock is safe exactly when nobody holds it** (`ClearingIsSafeIff`), and the
  deployment list does not show that by itself. It does when every process belongs to a listed
  deployment, launchers take turns from their look to their start, and the processes of cancelled
  and of failed deployments are gone when a look says to clear (`ClearingFindsNobody`). Dropping any
  one of these four lets two processes in (`EachAssumptionIsNeeded`), and the first release then
  removes the other's lock (`LockIsLost`).
* **The resolver of `${...}` values does not end on every map.** Resolving all variables ends, in
  any order, if and only if every cycle of references is a variable that refers to itself and
  that its first round, with the other names denoted, leaves as it is (`ResolutionEndsIff`).
  `A=${A}` is such a variable and `A=x${A}` is not (`SelfReferences`); `A=${B}` with `B=${A}`
  swaps the two references for ever (`SwapNeverEnds`).
* **A comment behind a value is not always dropped.** It makes no difference exactly when the text
  before it is not blank and not quoted and does not begin with a quote the comment ends in
  (`CommentIgnoredIff`). `NAME= # note` sets `NAME` to `# note` (`CommentBecomesValue`), and
  `NAME="x" # note` keeps its quotes: a quoted value with any comment behind it is never read
  back (`QuotesStay`, `QuotesStayAs`).
* **Slicing and `runTest`.** A class with test names of which a slice holds none falls back on its
  `runTest`, if it has one, which no unsliced run loads (`SpareRunTestIff` says in which slices). A
  class with nothing but a `runTest` is left in every slice by the first slicer and put into one
  slice by the second (`LoneRunTest`).

## Model

| member | source | states |
|---|---|---|
| Sharding.LptShards | tools/testkit/sharding.py:90-121 | the shards, updated in place, hold exactly the buckets `LptBins`, each with its weight summed, numbered in order; the reported total is the sum of all weights |
| Sharding.AssignHeaviestFirst | tools/testkit/sharding.py:114-120 | the assignment loop, on any empty shards, ends with the greedy buckets of the weights heaviest first, and nothing is lost in the sum |
| Sharding.PlanShardsForPhase | tools/testkit/sharding.py:124-133 | one empty shard without modules; else the occupied buckets in order, at least one bucket asked for, with the count and total of the plan |
| Sharding.PlanWithinModuleShards | tools/testkit/sharding.py:185-195 | the class planner with its weights in a separate array computes `ClassBins` |
| Sharding.GreedyIsGreedy | tools/testkit/sharding.py:115-118 | the placement puts every weight on the first of the bins that are lightest at that moment |
| Sharding.GreedyUnique | tools/testkit/sharding.py:115-118 | that property determines the placement: two placements with it are the same |
| Sharding.SingleBucketByName | tools/testkit/sharding.py:96-111 | with one shard asked for, or one module at most, the single shard holds all modules in the order of their names |
| StableSort.SortStable | tools/testkit/sharding.py:115 | modules of equal weight are placed in the order they were given |
| Sharding.LoadsSumToAll | tools/testkit/sharding.py:120 | the bins together weigh what was placed |
| LptBounds.ListSchedulingBound | tools/testkit/sharding.py:115-118 | weights placed in any order: every bin is within 2 - 1/m of the heaviest bin of any other placement |
| LptBounds.HeavyStep | tools/testkit/sharding.py:115-118 | when the lightest weight so far is more than a third of a rival's heaviest bin, the greedy bin is no heavier than that bin |
| LptBounds.HeaviestFirstBound | tools/testkit/sharding.py:115-118 | heaviest first: every bin is within 4/3 - 1/(3m) of the heaviest bin of any other placement |
| LptBounds.GreedyBinsWithinGraham | tools/testkit/sharding.py:185-195 | the same bound against every way of splitting the same items over m bins, for the class planner's bins |
| LptBounds.LptWithinGraham | tools/testkit/sharding.py:90-121 | every shard of `lpt_shards`, shortcut included, is within 4/3 - 1/(3m), and within 3/2, of every split of the same modules |
| LptBounds.GrahamIsTight | tools/testkit/sharding.py:115-118 | for every number m of shards the weights 2m-1, 2m-1, ..., m+1, m+1, m, m, m reach the bound: 4m - 1 in the first shard where a rival holds 3m in each |
| LptBounds.LptPartitions | tools/testkit/sharding.py:90-131 | the shards, before and after dropping empty ones, hold every module exactly as often as it was given |
| LptBounds.GreedyPartitions | tools/testkit/sharding.py:189-195 | the same for the class planner's bins |
| LptBounds.GreedyBinsBalanced | tools/testkit/sharding.py:115-118 | a shard without its last, lightest module is no heavier than any other shard |
| LptBounds.NoShardEmpty | tools/testkit/sharding.py:115-118 | with weights of at least 1 and at least as many modules as shards no shard is empty |
| LptBounds.PlannersAgree | tools/testkit/sharding.py:90-195 | from two shards on, module planner and class planner make the same shards of the same weighted sequence |
| RoundRobin.GreedyShards | tools/testkit/sharding.py:28-34 | the unweighted planner deals the sorted names in turn and drops empty shards |
| RoundRobin.FirstHandsStay | tools/testkit/sharding.py:28-34 | the shards left are the first hands dealt, as many as there are names and shards for |
| RoundRobin.SameAsEqualWeights | tools/testkit/sharding.py:28-34 | each of its shards is the one the weighted planner makes when all weights are equal |
| RoundRobin.SizesDifferByOne | tools/testkit/sharding.py:28-34 | no shard is more than one module ahead of another |
| HostResources.RequestsAreOrdered | tools/testkit/session.py:1213-1219 | no request names a browser slot before a production clone, or a resource twice |
| HostResources.InvHolds | tools/testkit/session.py:1247-1257 | in every state of every interleaving free permits plus holders are the configured slots and no pool exceeds its workers |
| HostResources.DeadlockFree | tools/testkit/session.py:1247-1257 | while any request is unfinished some request can move |
| HostResources.RunsComplete | tools/testkit/session.py:1206-1257 | every run is bounded; one that cannot go on has finished every request, in exactly the total number of steps, with all permits back |
| HostResources.RunningIsExclusive | tools/testkit/session.py:1206-1208 | never more requests run with a resource than it has slots |
| HostResources.FlagsAreRespected | tools/testkit/session.py:1213-1257 | in every run of any requests the running ones that are JS or tour tests number at most the browser's slots, and those that use a production clone at most the clones' |
| HostResources.WaitsForItsFlags | tools/testkit/session.py:1213-1257 | a request that has begun and cannot move waits for a permit its own flags ask for, with none free; one without flags never waits |
| HostResources.MixedOrderDeadlocks | tools/testkit/session.py:1213-1219 | the fixed order is what matters: two requests naming the resources in opposite orders can deadlock |
| TemplateLock.BuiltAtMostOnce | tools/testkit/session.py:789-862 | per slot at most one build in every interleaving, and never both a template and a failure |
| TemplateLock.SameAnswer | tools/testkit/session.py:789-862 | callers of a slot that return without an exception all get the same answer |
| TemplateLock.AnswerIsTheSlots | tools/testkit/session.py:789-862 | a production caller, or a phase caller with modules, gets no template only when its slot has failed, and a template only when it is the slot's |
| TemplateLock.WithoutModules | tools/testkit/session.py:828-832 | a phase caller without modules gets nothing and changes no slot |
| TemplateOutcomes.CanBeBuilt | tools/testkit/session.py:789-862 | such a caller can get a built template of any name |
| TemplateOutcomes.CanFail | tools/testkit/session.py:789-862 | the build can fail, which marks the slot and gives nothing |
| TemplateOutcomes.CanRaise | tools/testkit/session.py:789-862 | what comes before the build can raise, and leaves the slot as it was |
| TemplateOutcomes.ReuseIff | tools/testkit/session.py:794-823 | a template that was not built in the run can be had if and only if the slot is the production one |
| TemplateLock.DecisionIsFinal | tools/testkit/session.py:789-862 | once a slot is decided, its template, failure mark and build count never change |
| TemplateLock.SomebodyMoves | tools/testkit/session.py:794-823 | the lock does not deadlock |
| TemplateLock.RunsComplete | tools/testkit/session.py:789-862 | every run is bounded, and when nobody can move all callers have returned |
| RunOutcome.Classify | tools/testkit/executor.py:364-417 | lists every reason that applies, harness before tests before infrastructure; the first kind that occurs decides; the code is never zero for a failure |
| RunOutcome.KindIff | tools/testkit/executor.py:370-408 | each kind of outcome, in terms of the process's flags, counters and exit code alone |
| RunOutcome.ReasonsIff | tools/testkit/executor.py:378-394 | each of the seven reasons is listed exactly when the flags, counters and exit code say so |
| RunOutcome.ReasonsInOrder | tools/testkit/executor.py:396-405 | reasons are listed once each, in the fixed order of harness, tests, infrastructure |
| RunOutcome.VerdictMeansSuccess | tools/testkit/executor.py:396-417 | success and a zero code mean the same, and exactly that the process exited with 0, reported no failure, was not cut short, used its own database and ran tests if it had any |
| RunOutcome.AggregateFutures | tools/testkit/session.py:1023-1031 | the first nonzero code in completion order |
| RunOutcome.PhaseSucceedsIff | tools/testkit/session.py:1023-1055 | a phase's code is zero if and only if all its shards succeeded |
| RunOutcome.Finish | tools/testkit/session.py:481-669 | zero when no phase failed, else the code of the first failed phase in the fixed order |
| RunOutcome.Run | tools/testkit/session.py:672-714 | for either grouping, either keep-going setting and every completion order of the phases, the run ends with the code of the first failed phase, or 1 when preflight failed |
| RunOutcome.ExitZeroIff | tools/testkit/session.py:672-714 | the run exits 0 if and only if preflight passed and every shard of every phase succeeded |
| RunOutcome.OrderDoesNotMatter | tools/testkit/session.py:1023-1031 | whatever order shards complete in, the same runs exit 0 |
| TestSlicer.GetTestCaseNames | tools/testkit/sitecustomize.py:53-78 | of a class the patched loader keeps, in order, exactly the names not targeted, not beginning with `test`, or in its bucket |
| TestSlicer.GetModuleTestCases | tools/testkit/sitecustomize.py:81-109 | over a module's classes a run loads, in order, what the patched getter leaves of each, or its `runTest` when nothing is left, as far as the second patch lets it pass |
| TestSlicer.BuildMethodSliceRequests | tools/testkit/session.py:1118-1144 | as many requests as the database guardrail leaves, at least one, numbered from 0 and naming their own slice, database and target modules |
| TestSlicer.KeptInOneSlice | tools/testkit/sitecustomize.py:35-124 | a sliced test is kept by run k if and only if k is its hash bucket; every run keeps any other test; a count of 1 keeps everything |
| SlicerTargets.HomeRun | tools/testkit/sitecustomize.py:35-78 | run k keeps a `test*` of a targeted addon if and only if k is the hash of module, class and name, with dots between, modulo the number of runs |
| SlicerTargets.CoversIff | tools/testkit/sitecustomize.py:42-50 | a target covers exactly the modules with `.addons.`, the target and a dot in their path, those that end in `.addons.` and the target, and those that begin with the target and a dot |
| SlicerTargets.CoversItsAddon | tools/testkit/sitecustomize.py:42-50 | of the modules below `odoo.addons` a target covers those of the addon of its own name and no others, unless it is named `odoo` |
| TestSlicer.EveryTestOnce | tools/testkit/session.py:1118-1144 | all runs of a phase together load each sliced test but a `runTest` exactly as often as the unsliced loader finds it, for any hash, count and suite, and each other test in every run |
| SlicerTargets.AddonTestOnce | tools/testkit/session.py:1118-1144 | the runs of a phase together load a `test*` of one of its modules exactly as often as found, every run loads each test of any other addon, and a phase without modules slices every addon's; other names are sliced only under both patches |
| TestSlicer.SpareRunTestIff | tools/testkit/sitecustomize.py:53-109 | a class with test names gets its `runTest` loaded in exactly the slices that hold none of them, with both patches only in the one that is also its own, and never unsliced |
| TestSlicer.LoneRunTest | tools/testkit/sitecustomize.py:81-109 | a targeted class with nothing but a `runTest` has it in every slice under the first patch, in one under both |
| TestSlicer.TargetsAreModules | tools/testkit/sitecustomize.py:28-32 | the module list survives the environment: the run targets exactly the phase's modules |
| TestSlicer.DistinctDatabases | tools/testkit/session.py:1138 | requests with the same zero-padded database name are the same slice, beyond 999 slices too |
| SlicerTargets.GuardrailFits | tools/testkit/session.py:1009-1020 | more than one run is started only within the connections left, and none is taken away that had room |
| EnvReferences.RankDecreases | tools/stack_data_workflow.py:263-288 | the termination measure: when every cycle is a self-reference, a variable depends on more variables than any other one it refers to |
| EnvReferences.AcyclicIffRanked | tools/stack_data_workflow.py:263-288 | a measure that drops along every reference exists exactly for acyclic reference graphs |
| EnvReferences.DenoteIsTheSolution | tools/stack_data_workflow.py:243-290 | on an acyclic map the memo-free substitution solves all definitions at once, and nothing else does |
| EnvReferences.AcyclicIsSettled | tools/stack_data_workflow.py:263-288 | every acyclic map is one on which resolution ends |
| EnvMeaning.DenoteReads | tools/stack_data_workflow.py:252-261 | a variable that does not refer to itself denotes its text, without outer blanks and quotes, with each reference replaced: by what the variable denotes if the map has it, else by the process environment's text if it has the name, else by the default |
| EnvMeaning.DefaultsOfKnownNames | tools/stack_data_workflow.py:252-261 | changing defaults of names in the map or in the process environment changes neither whether resolution ends nor any result, outside of references of a variable to itself |
| EnvMeaning.StartShape | tools/stack_data_workflow.py:244-273 | a value is substituted without the blanks around it and then without one pair of the same quotes, and nothing else is taken off |
| ResolverEnds.ResolutionEndsIff | tools/stack_data_workflow.py:263-290 | on any map and in any visiting order, resolving all variables ends if and only if every cycle is a self-reference whose first round, the other names denoted, changes nothing |
| ResolverEnds.ResolutionDenotes | tools/stack_data_workflow.py:263-290 | whenever it ends, every variable has got what it denotes |
| ResolverRuns.ValueRuns | tools/stack_data_workflow.py:263-288 | one variable, in any state of cache and `seen` the resolver can be in: it ends when what it depends on settles, and then gives what it denotes with a sound cache |
| ResolverKnots.ValueNeverEnds | tools/stack_data_workflow.py:266-279 | a variable on a cycle of two or more names, once begun, never leaves its loop, whatever is being resolved above it and whatever is cached outside the cycle |
| ResolverEnds.SelfReferences | tools/stack_data_workflow.py:274-279 | `A=${A}` can be resolved, `A=x${A}` cannot |
| ResolverEnds.SwapNeverEnds | tools/stack_data_workflow.py:274-279 | `A=${B}`, `B=${A}`: rounds swap the two references, and no run ends |
| EnvResolver.Resolver.ResolveExpr | tools/stack_data_workflow.py:252-261 | what is cached, else the variable's run, else the process environment's text, else the default, the last two said outright; it makes exactly the run of the resolver's semantics, with `seen` as before |
| EnvResolver.Resolver.SubstituteRefs | tools/stack_data_workflow.py:275-279 | one pass, in place on cache and `seen`, is the round of the semantics, token by token from the left |
| EnvResolver.Resolver.ResolveValue | tools/stack_data_workflow.py:263-288 | whenever the run of a variable ends, on cyclic maps too, the loop makes it: result, cache and the restored `seen` |
| EnvResolver.Resolver.ResolveAll | tools/stack_data_workflow.py:290 | on every map on which resolution can end at all, in whatever order the variables are visited, the result is the denotation of each; each reference in it reads as the map's result, the process environment or the default, in this order |
| DokployProfiles.MergeSettings | tools/platform/models.py:205-220 | the loop computes the merge: overlay wins per key, two `env` tables are united with the overlay's variables winning |
| DokployProfiles.MergeAssociativeIff | tools/platform/models.py:205-220 | the merge is associative except for a table, a non-table and a table `env` with a variable of the first missing from the last |
| DokployProfiles.MergeOrderMatters | tools/platform/models.py:205-220 | a table, a text and an empty table under `env`: merged from the left the variable is lost, merged from the right it stays |
| DokployProfiles.MergeIdentity | tools/platform/models.py:205-220 | the empty settings are the identity on both sides |
| DokployProfiles.ResolveProjectTouches | tools/platform/models.py:162-192 | resolving a project alias changes no key but `project` and `project_name` |
| DokployProfiles.UnvisitedShrinks | tools/platform/models.py:121-150 | the termination measure of inheritance, on every table: names not yet active |
| ProfileChains.TraceExists | tools/platform/models.py:121-150 | every name on every table has an inheritance chain that ends at a root, a repeat, an unknown name or a non-table |
| ProfileChains.ResolveOutcome | tools/platform/models.py:121-159 | resolution gives the root-first fold of a chain with a root, and otherwise exactly the error the chain ends in, with the whole cycle named |
| ProjectNames.FoldSucceedsIff | tools/platform/models.py:151-192 | a chain of profiles folds if and only if each alias on it is known, names something and meets no project name, its own or inherited; the result carries the name in force |
| ProjectNames.FoldFailsAt | tools/platform/models.py:151-192 | a chain with bad references fails at the one nearest the root, and the error names that profile |
| ProjectNames.ResolveSucceedsIff | tools/platform/models.py:121-192 | a profile is accepted if and only if its chain reaches a root and every project reference on it is good, both said of the raw tables |
| ProjectNames.TargetSucceedsIff | tools/platform/models.py:87-113 | a target is accepted if and only if its profile is and its own alias, or the one in the defaults, is good above profile and defaults |
| ProjectNames.NameReadIff | tools/platform/models.py:121-192 | what counts as a name: a string with more than blanks, what a true scalar shows, the text of a table with entries |
| ProjectNames.AliasReadIff | tools/platform/models.py:162-171 | an alias is also a scalar that is false or an empty table |
| ProfileChains.ActiveIrrelevant | tools/platform/models.py:128-150 | the profiles being resolved above a profile change at most its error, never success or value |
| ProfileResolver.Resolver.ResolveProfile | tools/platform/models.py:121-159 | whatever the memo already holds, the result is that of the memo-free recursion, and the memo stays sound |
| ProfileResolver.NormalizeTargets | tools/platform/models.py:81-118 | all targets with one shared memo get what each would get alone, or the first error |
| ProfileResolver.TargetsAreIndependent | tools/platform/models.py:87-113 | no target's settings depend on the targets before it |
| ProfileResolver.TargetNearest | tools/platform/models.py:94-113 | a key other than `env` and the project keys comes from the nearest of target, chain and defaults |
| ProfileResolver.TargetNearestVariable | tools/platform/models.py:94-106 | a variable of `env` comes from the nearest layer that sets it, when every `env` is absent or a table |
| ProjectNames.OverrideAcceptedIff | tools/platform/models.py:169-192 | an alias above a chain that names a project is accepted if and only if its own profile blanks the inherited name, and is otherwise rejected as defining both |
| ProjectNames.AliasDoesNotOverride | tools/platform/models.py:169-177 | two profiles with an alias each: the child is rejected, and accepted with an empty `project_name` |
| ShipProtocol.InvHolds | tools/platform/commands_release.py:580-656 | in every run, with pushes by others at any moment, every event in the log has what it needs before it |
| ShipProtocol.MovesFromSeenToPinned | tools/platform/commands_release.py:591-643 | with git metadata a move goes from the tip seen, where the branch still is, to the commit pinned, and pin, look and gates precede it in this order |
| ShipProtocol.PromoteShipsTestedCommit | tools/platform/release_workflows.py:284-338 | a promote moves the branch to the commit the testing branch was at when read, after the backup gate, with gates skipped in its ship |
| ShipProtocol.LostLeaseNeverShips | tools/platform/commands_release.py:296-310 | in a run whose push step meets a tip that is neither the one seen nor the commit, no move and no deployment ever happens, before or after |
| ShipProtocol.AbortedNeverDeploys | tools/platform/commands_release.py:629-656 | an aborted command has not deployed and never will |
| ShipProtocol.DeployFollowsGatesAndSync | tools/platform/commands_release.py:598-656 | a deployment follows every gate the policy asks for and is not bypassed, and the whole branch sync, and never happens in a dry run |
| ShipProtocol.SyncedBeforeDeploy | tools/platform/commands_release.py:580-656 | a deployment of a compose target, or of an application with a git branch, has before it the pin of a commit and the event by which the branch holds that commit |
| ShipProtocol.NeverSynced | tools/platform/commands_release.py:580-656 | an application without a git branch is never pinned, looked at, moved or found up to date |
| ShipOutcomes.DeployPossibleIff | tools/platform/commands_release.py:580-656 | from any branch tips a run that deploys exists if and only if the command is no dry run, its required gates fit its instance or are skipped, a compose target has a branch, and an explicit source for a branch comes with git metadata |
| ShipOutcomes.DryRunTouchesNothing | tools/platform/commands_release.py:591-656 | a dry run pins nothing, does not look at the branch, pushes nothing and deploys nothing |
| ShipOutcomes.DryRunEndsIff | tools/platform/commands_release.py:587-628 | a dry run can come to its end if and only if its required gates fit its instance or are skipped, with or without branch and metadata |
| ShipOutcomes.PushAcceptedIff | tools/platform/commands_release.py:296-310 | the push step can go on to the deployment if and only if there is nothing to push, the branch is where it was seen, or it is at the commit already; after a push it is at the commit |
| ShipOutcomes.EffectsMayFail | tools/platform/commands_release.py:580-656 | every effect may fail, a push even after the remote took it |
| ShipProtocol.AtMostOnce | tools/platform/commands_release.py:629-656 | at most one push, whether it moves the branch or finds the commit there, and at most one deployment |
| ShipProtocol.DeployedTip | tools/platform/commands_release.py:643-656 | what is deployed is the pinned commit as the pushes by others made after the sync left it |
| ShipProtocol.DeployedIsPinnedIff | tools/platform/commands_release.py:643-656 | the deployed tip is the pinned commit if and only if the last push by somebody else between sync and deployment, if any, left the branch there |
| ShipProtocol.DeployRace | tools/platform/commands_release.py:643-656 | a run in which a later push is deployed instead of the pinned commit |
| PyStrings.SplitJoined | tools/platform/dokploy.py:542 | joined lines without breaks split back |
| PyStrings.SplitAtCrLf | tools/platform/dokploy.py:542 | a carriage return and a line feed end one line together |
| EnvMaps.LastLineWins | tools/platform/dokploy.py:553 | of several lines for a name the last one decides |
| EnvMaps.CollectIsIdentityIff | tools/platform/dokploy.py:541-554 | a dictionary is read back from as many lines if and only if each line gives its entry |
| EnvText.ParseText | tools/platform/dokploy.py:540-554 | the loop over lines computes `Parse`, with its blank, comment, `export` and no-`=` branches |
| EnvText.ParseIsTidy | tools/platform/dokploy.py:540-554 | a parsed text has distinct names without `=`, outer blanks or breaks, and values without breaks or trailing blanks |
| EnvText.ParsedExactlyTidy | tools/platform/dokploy.py:540-554 | and every such dictionary is what some text parses to |
| EnvText.RenderReadsAsEcho | tools/platform/dokploy.py:544-553 | how each printed line is read back: dropped behind `#`, without its `export `, or as it stands |
| EnvText.HashGivesNothing | tools/platform/dokploy.py:544-545 | a line whose first character behind blanks is `#` gives nothing |
| EnvText.ExportIsDropped | tools/platform/dokploy.py:546-547 | a line reads the same with `export ` in front |
| EnvText.RoundTrip | tools/platform/dokploy.py:540-561 | printing then parsing gives a dictionary back, in order, if and only if all its entries are clean |
| EnvText.ParsePrintParse | tools/platform/dokploy.py:540-561 | parse, print, parse is parse if and only if no parsed name begins with `#` or `export ` |
| Reconcile.Target.Reconcile | tools/platform/commands_dokploy.py:661-709 | reports exactly the keys to update and to prune, and writes the reconciled text when applying changed something, else nothing |
| Reconcile.Update | tools/platform/commands_dokploy.py:686-689 | the update loop overrides values in place and appends missing variables in order |
| Reconcile.Prune | tools/platform/commands_dokploy.py:691-698 | the prune loop removes exactly the prunable variables that are not desired |
| Reconcile.PrunableIff | tools/platform/commands_dokploy.py:11-27 | which names are prunable, said character by character |
| Convergence.OneRun | tools/platform/commands_dokploy.py:686-698 | after a run each variable is the desired one, gone if prunable and pruning, or as before |
| Convergence.SecondLook | tools/platform/commands_dokploy.py:661-709 | what is read back under a name from a printed dictionary is the last entry that echoes as it |
| Convergence.ConvergesIff | tools/platform/commands_dokploy.py:661-709 | for clean desired entries a second run finds nothing if and only if the first found nothing or no nested `export` line has the last word on a desired name with another value or hides a name to prune |
| Convergence.CleanRun | tools/platform/commands_dokploy.py:661-709 | on a text without shadowed names one applied run reads back as desired plus the rest minus the pruned, and a second run finds nothing |
| Convergence.RelapseHappens | tools/platform/commands_dokploy.py:661-709 | every dictionary that gives the first run something to do and does not settle comes from a text on which one run is not enough |
| Convergence.NestedExportReverts | tools/platform/commands_dokploy.py:686-709 | a nested `export` sets a desired variable back |
| Convergence.NestedExportIsPrunedLate | tools/platform/commands_dokploy.py:691-709 | a prunable name behind a nested `export` is pruned only by the second run |
| RepeatedRuns.ReconcileEnds | tools/platform/commands_dokploy.py:661-709 | on every text, once there were more applied runs than the deepest nesting of `export `, a run finds nothing, every desired variable has its value, and the text stays |
| RepeatedRuns.DepthCounts | tools/platform/dokploy.py:546-547 | how deep a name is nested is how many `export ` stand in front of it |
| RepeatedRuns.UntidyNeverEnds | tools/platform/commands_dokploy.py:661-709 | with a desired entry that no line can hold every run finds something to update |
| StackEnvFile.ParseEnvLines | tools/environment_files.py:15-36 | the loop computes `Parse`, with quotes removed, else the comment cut off |
| StackEnvFile.LineReadsIff | tools/environment_files.py:17-35 | a printed line is read back as it stands if and only if its name is clean and its value has no outer blanks, matching outer quotes or ` #` |
| StackEnvFile.CleanValueIff | tools/environment_files.py:17-35 | the values that can be read back, character by character: no line break, no blank at either end, not between two double or two single quotes, no ` #` |
| StackEnvFile.CommentAtIff | tools/environment_files.py:33-34 | where a comment begins: at the first blank followed by `#`, nowhere exactly when there is none |
| EnvComments.QuotedReads | tools/environment_files.py:28-32 | between quotes any value without a line break is read back as it is |
| EnvComments.CommentReads | tools/environment_files.py:27-35 | what is read from any text with ` #` and any comment behind it |
| EnvComments.CommentIgnoredIff | tools/environment_files.py:27-35 | a comment makes no difference if and only if the text before it is not blank, not quoted and does not begin with a quote the comment ends in |
| EnvComments.CommentDroppedIff | tools/environment_files.py:27-35 | a clean value with a comment behind it is read back if and only if it is not empty and does not begin with a quote the comment ends in |
| EnvComments.CommentBecomesValue | tools/environment_files.py:27-35 | a comment behind an empty value becomes the value, up to its own next ` #` |
| EnvComments.QuotesStay | tools/environment_files.py:28-34 | no quoted value is read back when any comment stands behind it |
| EnvComments.QuotesStayAs | tools/environment_files.py:28-34 | what is read instead: the quotes stay, up to a ` #` inside them, or the comment closes the value |
| StackEnvFile.PrintedInOrder | tools/deployer/data_workflow_support.py:22-24 | the file lists the variables in the order of their names |
| StackEnvFile.CleanRereads | tools/deployer/data_workflow_support.py:22-24 | a clean map is read back in name order |
| StackEnvFile.RoundTrip | tools/environment_files.py:15-36 | the rendered file gives back the map if and only if every entry is clean |
| ModuleClosure.DependencyClosure | docker/scripts/run_odoo_data_workflows.py:1753-1765 | the worklist, on any possibly cyclic graph, ends with the least set holding the roots and closed under local dependencies, and queues each module once |
| ModuleClosure.QueueDependencies | docker/scripts/run_odoo_data_workflows.py:1760-1765 | one module's step adds exactly its local dependencies that are new |
| ModuleClosure.AutoUpdateModules | docker/scripts/run_odoo_data_workflows.py:1741-1781 | nothing to do without an installed local module, else the closure in name order without repeats |
| ModuleClosure.LeastClosedIsReachable | docker/scripts/run_odoo_data_workflows.py:1753-1765 | a module is in it if and only if a chain of dependencies leads to it from an installed module |
| Names.NameLeqIff | docker/scripts/run_odoo_data_workflows.py:1766 | one name is before another when the first differing character is lower, or it is the other's beginning |
| WorkflowLock.ClearingFindsNobody | tools/stack_data_workflow.py:638-652 | a clearing decided on the deployment list takes the lock from nobody, when every process is listed, launchers take turns, and the processes of cancelled and failed deployments are gone at a look that says to clear |
| WorkflowLock.LockIsExclusive | docker/scripts/run_odoo_data_workflows.py:402-427 | under the same four assumptions at most one process is between acquire and release, a release removes its own lock, and a refused process removes nothing |
| WorkflowLock.LockIsReturned | docker/scripts/run_odoo_data_workflows.py:121-158 | under the same four assumptions, unless a process was killed, the file exists exactly while somebody holds the lock |
| WorkflowLock.ClearingIsSafeIff | tools/stack_data_workflow.py:404-407 | a deployment that clears and then takes the lock keeps it exclusive if and only if nobody held it |
| WorkflowLock.EachAssumptionIsNeeded | tools/stack_data_workflow.py:638-652 | for each of the four assumptions a run that breaks only it, decided on the list it shows, and lets two processes in |
| WorkflowLock.LockIsLost | tools/stack_data_workflow.py:404-407 | a process cancelled in the list but still alive removes the lock of the one that took over |
| StaleLock.ShouldClearStaleLock | tools/stack_data_workflow.py:499-509 | asks for clearing if and only if nothing runs and the newest deployment that was cancelled or succeeded was cancelled |
| StaleLock.ClearFromNewest | tools/stack_data_workflow.py:499-509 | read from the newest on: a running or succeeded one says no, a cancelled one yes unless an older one runs, any other leaves it to the older ones |
| Percentile.PercentileMonotone | tools/gate_benchmark.py:45-59 | monotone over the whole of [0, 1], across cell boundaries |
| Percentile.PercentileEnds | tools/gate_benchmark.py:45-59 | the least sample at 0 and the greatest at 1 |
| Percentile.PercentileWithinRange | tools/gate_benchmark.py:45-59 | always between least and greatest sample |
| Percentile.PercentilePermutation | tools/gate_benchmark.py:50 | unchanged by reordering the samples |
| Percentile.PercentileAtSample | tools/gate_benchmark.py:51-59 | at k/(n-1) it is the k-th smallest sample |
| Percentile.PercentileRise | tools/gate_benchmark.py:45-59 | no jumps: between any two `p` the percentile rises by at most the spread of the samples per cell, with n - 1 cells to the unit |
| Percentile.SummaryOrdered | tools/gate_benchmark.py:62-79 | min <= p50 <= p95 <= max and min <= mean <= max |
| Percentile.SummaryExtremes | tools/gate_benchmark.py:73-76 | min and max are samples that no sample passes |
| Percentile.MeanTimesCount | tools/gate_benchmark.py:76 | the mean times the count is the sum of the samples |
| Percentile.SummaryMedian | tools/gate_benchmark.py:77 | of an odd number of samples p50 is the middle one in order |
| Percentile.SummaryTail | tools/gate_benchmark.py:78 | of 20k + 1 samples p95 is the one with k above it |

## Left out

- Test counting and historical timings (`compute_weights`), file discovery and manifest reading: weights, class lists and dependency maps are inputs.
- How many workers a pool gets: pool sizes and slot counts are inputs, at least 1.
- HTTP, Docker, ssh, psql, subprocesses and the git commands themselves: only their results appear, as inputs or as steps that may fail.
- Exceptions outside a function's own handling, such as an interrupt between two statements; a worker that raises ends the whole Python run and has no exit code here.
- The digest behind the test buckets: any function from names to naturals. Reading `TEST_SLICE_TOTAL` and `TEST_SLICE_INDEX` back from text is an input, a number or not.
- The standard loader itself, which is not part of the repository: it finds the names of a class in a given order, none of them `runTest`, and falls back on `runTest` when none is left.
- Floating point: percentile and mean are exact reals.
- EnvResolver.Resolver.ResolveValue: values are sequences of characters and references whose defaults are plain text; `expandvars`, `expanduser` and references that come together only in a round, from a `$` and pieces beside it, are not modelled.
- Profile settings: `strip()` of a string is carried beside it in `Value`, a table used as a name is shown as one fixed text, non-string keys of `env` are absent.
- ShipProtocol.MovesFromSeenToPinned: health checks, waiting for the deployment and post-deploy steps come after the deployment is triggered and are not steps of the model.
- ShipProtocol.DeployedTip: the deployment reads the branch tip at the moment it is triggered; a build that reads it later could see a later push.
- Reconcile: domains and the compose branch field, which do not touch the environment text.
- WorkflowLock.LockIsExclusive: holds for runs that keep the four assumptions of `Orderly`, each of which `EachAssumptionIsNeeded` shows to be necessary.
- The order of phases inside one test run's report files, JUnit output, coverage and log parsing.
- Provisioning, credentials, log redaction, the embedded Odoo shell and bash scripts, browser wrappers and command-line wiring.
