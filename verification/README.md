# Nelm's deployment planner, modelled and proved in Dafny

Nelm turns what has to happen to a release (resources to deploy, track and delete, revisions to
create, update and remove) into a graph of operations, optimises the graph and executes it with
concurrent workers. This project models that core and proves what it promises, for every input,
every plan and every interleaving.

`dafny verify dfyconfig.toml` checks everything.

| file | what it holds |
|---|---|
| `Operations.dfy`, `Precedence.dfy`, `GraphRewrites.dfy` | operations and their IDs; the order that the edges of a graph generate; squashing and transitive reduction as rewrites of edge sets |
| `PlanGraph.dfy` | the plan object: connecting, squashing, optimising, JSON in and out |
| `Scheduler.dfy`, `StartOrders.dfy` | the executor as a transition system; the orders in which executions begin their operations |
| `Rounds.dfy`, `PoolRoom.dfy`, `OptimizedOrders.dfy` | exactly which of these orders a pool of a given size can produce; when its size does not matter; what optimising does to them |
| `ResourceInfo.dfy`, `ReleaseInfo.dfy` | decisions for resources and for revisions |
| `Chains.dfy`, `PlanRequest.dfy`, `PlanBuild.dfy`, `Dependencies.dfy`, `Stages.dfy`, `Builder.dfy` | the chain builder and the plan builder; `PlanBuild.Described` is the graph that a build asks for |
| `StageOrder.dfy`, `EmptyStages.dfy`, `PlanProperties.dfy` | what every built plan guarantees |
| `Pipeline.dfy`, `Promises.dfy` | from the answers of the cluster through all passes to a built plan, and what the plan promises of the resources decided upon |
| `Collisions.dfy`, `Ranks.dfy`, `Buildability.dfy` | when operations collide, and when building cannot fail, said of the resources |
| `FailurePlan.dfy` | the plan executed after a failure |
| `History.dfy`, `ReleaseRuns.dfy`, `ReleaseLifecycle.dfy` | the release history, what executions do to it, and whole sequences of actions |
| `Reporter.dfy`, `ReporterRuns.dfy` | the progress reporter, alone and interleaved with the executor |
| `Limits.dfy` | inputs on which the code does less than one might expect |

How the parts compose: `ResourceInfo.FinishInfos` turns decided infos into those a plan is built
from and says so (`FinishedFrom`); `Builder.BuildPlan` establishes `Built(q, h, noFinalTracking)`,
which says that `h` is the optimised form of the graph that the request `q` describes. Everything in
`StageOrder`, `PlanProperties`, `FailurePlan` and `ReleaseLifecycle` is proved from `Built` and from
reachability in the transition system of `Scheduler`, so it holds of every execution of every plan
that the builder returns. `Promises.PlanFor` runs from the decisions to the plan. What the plan then
promises is said of the decided cases alone, without the functions that compute it:
`Pipeline.PassesRealize` says what each case asks for, and `Promises.KeepsPromises` which operations
the plan has, in which order, and what they wait for.

Properties that hold only under a condition have that condition proved.

- Iteration numbers tell the infos of a resource apart iff no resource ID comes three times
  (`ResourceInfo.UniqueIffAtMostTwice`); the lookup of an earlier info takes the first one, so a
  third one gets iteration 1 again (`Limits.ThirdOccurrenceCollides`).
- The failure plan looks up the readiness operation of every resource to delete on failure and
  panics if it is missing. On a plan built without dropping final tracking every lookup succeeds
  (`FailurePlan.FailureLookupsSucceed`). On one built with `NoFinalTracking` a lookup succeeds iff a
  resource operation comes after the readiness operation (`FailurePlan.LookupIffResourceAfter`, and
  for all lookups at once `FailurePlan.LookupsSucceedIff`); for a plan with a single such resource
  it never does (`Limits.LoneResourceLookupFails`).
- A full worker pool blocks the scheduling loop, so not every order that respects precedence can be
  produced (`Limits.FullPoolForbids`). For every limit the orders that can are exactly those that
  go in rounds, each of which finds its places in the pool (`Rounds.ProducesIffInRounds`). Every
  order is possible if the pool has room (`PoolRoom.ProducesIffStartOrder`): a limit of all
  operations but one, or of as many as are ever executable at once, is enough
  (`PoolRoom.SmallIsRoomy`, `PoolRoom.NarrowIsRoomy`). With one worker room is necessary as well
  (`PoolRoom.OneWorkerExactly`). Without room optimising can take orders away and add others
  (`Limits.OptimizingTakesAway`, `Limits.OptimizingAdds`).
- The failure plan of an uninstall can succeed iff the last revision had not been deleted when the
  uninstall failed; every other failure plan always can (`ReleaseLifecycle.FailurePlanSucceedsIff`).

## Model

| member | source | states |
|---|---|---|
| `Precedence.AddEdgeAcyclic` | pkg/plan/plan.go:23-45 | Refusing an edge that is a loop or whose target already precedes its source is exactly refusing the edges that would make the graph cyclic. |
| `GraphRewrites.SquashPreservesPrecedence` | pkg/plan/plan.go:127-149 | Removing an operation and joining its predecessors to its successors keeps the graph acyclic and keeps precedence between the others, in both directions. |
| `GraphRewrites.ReductionPreservesPrecedence` | pkg/plan/plan.go:110-116 | Dropping every edge with a detour leaves the same precedence, and no remaining edge can be dropped. |
| `PlanGraph.Plan.Connect` | pkg/plan/plan.go:35-45 | An edge is accepted iff both ends exist and the graph stays acyclic; an existing edge is accepted without change; a refusal changes nothing. |
| `PlanGraph.Plan.SquashOperation` | pkg/plan/plan.go:127-149 | The result is the squashed graph, no reconnection is refused, and all surviving operations keep their precedence exactly. |
| `PlanGraph.Plan.TransitiveReduction` | pkg/plan/plan.go:110-116 | The edges become the reduction of the old ones, and precedence survives. |
| `PlanGraph.Plan.FindMetaOperationPairs` | pkg/plan/plan.go:312-339 | Exactly the opening brackets are found, and the closing bracket of each is in the plan, so the pair lookup cannot fail. |
| `PlanGraph.Plan.FindUselessMetaOperations` | pkg/plan/plan.go:341-361 | Exactly the pairs whose opening bracket leads to nothing but its own closing bracket. |
| `PlanGraph.Plan.SquashUselessMetaOperations` | pkg/plan/plan.go:293-310 | Terminates, removes only stage brackets, an opening one iff its closing one, keeps precedence, and ends with no opening bracket that leads only to its own end. |
| `PlanGraph.Plan.SquashFinalTrackingOperations` | pkg/plan/plan.go:363-386 | Removes exactly the tracking operations from which no resource operation is reachable in the original graph, and keeps precedence between the rest. |
| `PlanGraph.FinalTrackingOrderIrrelevant` | pkg/plan/plan.go:363-386 | Whatever order the operations map is iterated in, the same operations remain in the same precedence. |
| `PlanGraph.Plan.Optimize` | pkg/plan/plan.go:110-125 | Survivors are unchanged and keep their precedence both ways; only brackets and, on request, exactly the final tracking operations are removed; no edge is left with a surviving operation between its ends, unless it stands for a removed one that has no order with that operation; brackets go in pairs, only with nothing left between them, and all that hold nothing but each other go. |
| `PlanGraph.SquashTight` | pkg/plan/plan.go:127-149 | Squashing an operation leaves no needless edge where there was none. |
| `PlanGraph.HollowGone` | pkg/plan/plan.go:293-310 | Where no edge is needless and no bracket leads only to its own end, no pairs are left that hold nothing but each other. |
| `PlanGraph.Plan.MarshalJSON` | pkg/plan/plan.go:47-83 | The listing holds every operation and every edge and nothing else. |
| `PlanGraph.Plan.UnmarshalJSON` | pkg/plan/plan.go:160-183 | From any listing of a valid plan, in any order, exactly that plan is rebuilt and no edge is refused; in general it fails iff the listed edges are cyclic or lack an end. |
| `Scheduler.StepInv` | pkg/plan/plan_execute.go:50-124 | Every step of the loop, of a worker or of a cancellation keeps the invariant that ties statuses, workers, queue and the loop's predecessor sets together, and the pool within its limit. |
| `Scheduler.SchedulerSafety` | pkg/plan/plan_execute.go:50-124 | In every reachable state an operation began at most once and only after everything that precedes it completed; nothing after a failed operation begins; completed operations are closed under predecessors. |
| `Scheduler.SuccessMeansAllCompleted` | pkg/plan/plan_execute.go:87-96 | If execution returns no error, every operation completed, each began, took effect and completed once, in an order the plan allows. |
| `Scheduler.ClosingSubmitsNothing` | pkg/plan/plan_execute.go:55-60 | After a cancellation or a failure, once the loop is back at its head, nothing is submitted any more, so what is unscheduled never begins. |
| `Scheduler.NoDeadlock` | pkg/plan/plan_execute.go:54-83 | While operations are unscheduled and nothing is cancelled, something is executable, queued as completed, or in flight. |
| `Scheduler.StepsTerminate` | pkg/plan/plan_execute.go:54-83 | Every step except polling moves a well-founded measure down, and the loop polls only while a worker is in flight. |
| `Scheduler.CanAlwaysFinish` | pkg/plan/plan_execute.go:54-96 | From every reachable state the executor can run to its return, and to a successful one if nothing failed or was cancelled. |
| `Scheduler.CanFail` | pkg/plan/plan_execute.go:79-124 | Whatever runs can fail, and execution then returns an error with that operation failed. |
| `Scheduler.CanBeCancelled` | pkg/plan/plan_execute.go:38-96 | Execution can be cancelled at any moment until its return, and then returns an error. |
| `StartOrders.ProducedIsStartOrder` | pkg/plan/plan_execute.go:54-83 | Whatever the limit of the pool, a successful execution begins every operation once, and none before one that precedes it. |
| `StartOrders.HealRun` | pkg/plan/plan_execute.go:54-124 | Whatever an execution does, failing or being cancelled included, a healthy execution that has begun the same operations can go on to begin the same ones in the same order. |
| `StartOrders.BeginsIffPrefix` | pkg/plan/plan_execute.go:54-96 | For every limit: what an execution can have begun at any moment, whether it goes on, fails or is cancelled, are exactly the prefixes of the orders of successful executions. |
| `Rounds.ProducesIffInRounds` | pkg/plan/plan_execute.go:54-124 | For every limit: the start orders of successful executions are exactly the listings that respect precedence and go in rounds, where every operation begun has been submitted, everything submitted fits into the pool when a round ends, and whatever is submitted in a round finds a place. |
| `Rounds.RunIsPaced` | pkg/plan/plan_execute.go:62-83 | Every successful execution goes in such rounds, one for each time the loop has received completions. |
| `Rounds.FollowRounds` | pkg/plan/plan_execute.go:62-83 | Any rounds that fit can be executed one after the other, and begin the operations in the given order. |
| `PoolRoom.ProducesIffStartOrder` | pkg/plan/plan_execute.go:48-83 | If fewer mutually unordered operations than the limit stand beside any two that are ordered, the start orders of successful executions are exactly the listings that respect precedence. |
| `PoolRoom.SmallIsRoomy` | pkg/plan/plan_execute.go:42-48 | That holds if the limit is at least the number of operations less one. |
| `PoolRoom.NarrowIsRoomy` | pkg/plan/plan_execute.go:42-48 | It holds if the limit is at least the largest number of mutually unordered operations. |
| `PoolRoom.WindowBound` | pkg/plan/plan_execute.go:79-83 | For every limit: when an operation begins that waits for `y`, fewer operations than the limit whose predecessors all precede `y` have not begun yet. |
| `PoolRoom.AllOrdersNeed` | pkg/plan/plan_execute.go:79-83 | If every order that respects precedence is possible, then for every edge fewer operations than the limit have all their predecessors before its source without preceding its target. |
| `PoolRoom.OneWorkerExactly` | pkg/plan/plan_execute.go:42-83 | With a limit of one, every order that respects precedence is possible iff of any two ordered operations every third one is ordered with at least one. |
| `OptimizedOrders.RoomSurvives` | pkg/plan/plan.go:110-149 | What is left of a plan has room in the pool where the plan had. |
| `OptimizedOrders.OptimizeKeepsStartOrders` | pkg/plan/plan.go:110-149 | If the pool has room for the original plan, the start orders of successful executions of the optimised plan are exactly those of the original plan with the removed operations erased; with room for the optimised plan alone, erasing gives no order that it does not have. |
| `OptimizedOrders.OptimizeKeepsBegun` | pkg/plan/plan.go:110-149 | The same for every reachable state: what the optimised plan can have begun, also in executions that fail or are cancelled, is what the original plan can, with the removed operations erased. |
| `ResourceInfo.InstallTypeExactly` | pkg/plan/resource_info.go:843-903 | For each way of installing, and for each error, the exact condition under which it is chosen. |
| `ResourceInfo.OnlyLocalPoliciesDecide` | pkg/resource/resource.go:375-389 | Policies of the live object never decide how a resource is installed. |
| `ResourceInfo.DecisionSound` | pkg/plan/resource_info.go:161-235 | Every decided info obeys the policies of the resource and of the live object, and its stages and flags fit together. |
| `ResourceInfo.ForceReadinessTracking` | pkg/plan/resource_info.go:589-627 | Tracking is turned on, in place, exactly for non-CRD resources installed or live that a manual ready dependency of their stage matches. |
| `ResourceInfo.ForcedTargetsStayTracked` | pkg/plan/resource_info.go:589-627 | After any reordering and iterating, everything that a manual ready dependency can wait for is tracked. |
| `ResourceInfo.IterateInfos` | pkg/plan/resource_info.go:682-726 | Later infos of an ID get iteration 1 and are created anew if the first one is cleaned up on success, unless creating is forbidden; the previous iteration is always found. |
| `ResourceInfo.LaterIsRemade` | pkg/plan/resource_info.go:696-724 | A later info of a resource keeps what was decided, except that what is installed is created if and only if it would be anyway or the earliest info is cleaned up on success and creating is not forbidden. |
| `ResourceInfo.UniqueIffAtMostTwice` | pkg/plan/resource_info.go:682-726 | ID and iteration identify an info iff no ID occurs three times. |
| `ResourceInfo.IteratedSound` | pkg/plan/resource_info.go:682-726 | Iterating breaks no policy and no other promise of an info. |
| `ResourceInfo.FinishInfos` | pkg/plan/resource_info.go:132-142 | In place, the infos become the decided ones, forced, put in an order by stage that takes each of them once, and iterated. |
| `ResourceInfo.PassesKeepPromises` | pkg/plan/resource_info.go:132-142 | Of sound decisions: every decided info is there with its resource and stage and no other; all are sound and in stage order, the earliest of a resource with iteration 0; ready targets are tracked; iterations are unique iff no resource was decided three times. |
| `Pipeline.InfoMeans` | pkg/plan/resource_info.go:207-234 | What a decided case asks for: tracked are installs that are not skipped, no CRDs and blocking, and unchanged live resources after a failed release or before a clean-up; cleaned up and removed on failure is what asks for it and may be deleted; clean-ups come in the next stage. |
| `Pipeline.ForcedMeans` | pkg/plan/resource_info.go:589-627 | Forcing turns tracking on exactly for cases that a manual ready dependency of their stage waits for. |
| `Pipeline.PassesRealize` | pkg/plan/resource_info.go:132-142 | The passes make one info of every case, in the order of stages: iteration 0 for the first case of a resource and 1 for later ones, installed as decided or created anew after a clean-up, tracked, cleaned up and removed on failure exactly as the cases ask. |
| `Promises.PlanHasWhatIsAsked` | pkg/plan/plan_build.go:268-521 | The plan has every operation that a case or a deletable resource asks for, though without final tracking perhaps not all tracking, and on resources no operation that none asks for, except tracking the presence of what is depended upon. |
| `Promises.PlanKeepsCasesInOrder` | pkg/plan/plan_build.go:386-521 | External dependencies are seen before a resource is deployed; it becomes ready, is cleaned up and seen to be absent after that, in this order. |
| `Promises.PlanKeepsStages` | pkg/plan/plan_build.go:386-552 | Everything in an earlier stage, clean-ups coming in the stage after, precedes everything in a later one, and in a stage lower weights precede higher ones. |
| `Promises.PlanKeepsIterations` | pkg/plan/resource_info.go:905-922 | Everything for a resource in an earlier stage precedes everything for it in a later one. |
| `Promises.PlanMeetsDependencies` | pkg/plan/plan_build.go:89-134 | Whatever is deployed comes after the deployment, the readiness or the absence, as the dependency says, of a matching resource of its stage, the first of the lowest iteration there is, for automatic and manual dependencies. |
| `Promises.PlanKeepsDeletions` | pkg/plan/plan_build.go:201-232 | A deletion comes after the absence of every matching resource deleted in its stage, or, without any, of a matching one cleaned up there; absence is tracked after the deletion. |
| `Promises.CasesKeepPolicies` | pkg/plan/resource_info.go:843-903 | No case asks to create, update, recreate, apply or delete what its policies, or those of its live object, protect. |
| `Promises.DecidedPlansKeepPromises` | pkg/plan/resource_info.go:88-152 | From decisions through every pass and the builder, with or without final tracking, a plan keeps all of these promises. |
| `Promises.PlanFor` | pkg/plan/resource_info.go:161-235 | Makes the infos of all decided cases, runs the passes and builds: each case is realized once, it succeeds iff the request is buildable, and the plan keeps the promises and has no needless edges or brackets. |
| `Promises.FailurePlanRemovesFailed` | pkg/plan/plan_build.go:329-384 | After any execution a failure plan deletes exactly the cases to be removed on failure whose readiness failed, tracks their absence after that, and touches no other resource. |
| `Chains.Do` | pkg/plan/plan.go:217-269 | A chain is added iff no step meets an unwanted duplicate and the result is acyclic; then the graph is exactly the requested one. |
| `Chains.ChainStepDone` | pkg/plan/plan.go:217-269 | Every step of every chain is in the final graph, linked to the step before it and, unless it may be shared, placed between the brackets of its stage. |
| `Chains.ChainOrigin` | pkg/plan/plan.go:217-269 | Every added operation was put in its stage by a step of some chain. |
| `Stages.MainStagesFit` | pkg/plan/plan_build.go:523-552 | Adding the main stages is never refused, and each opens before it closes. |
| `Stages.WeightChainsFit` | pkg/plan/plan_build.go:654-706 | Adding weighted sub-stages is never refused, in whatever order the stages are iterated. |
| `Stages.DescribedPaired` | pkg/plan/plan_build.go:523-552 | Every opening bracket of a plan under construction has its closing one, which the optimiser relies on. |
| `PlanRequest.InsertWeight` | pkg/plan/plan_build.go:668-671 | Weights are kept sorted and without repetition. |
| `PlanRequest.WeightIn` | pkg/plan/plan_build.go:654-666 | The weights of a stage are exactly those of its resources. |
| `PlanBuild.CollectWeights` | pkg/plan/plan_build.go:654-671 | The table has, for every stage with weighted resources, its sorted distinct weights. |
| `PlanBuild.AddMainStages` | pkg/plan/plan_build.go:523-552 | On success the plan has exactly the chain of main stage brackets added. |
| `PlanBuild.AddWeightedSubStages` | pkg/plan/plan_build.go:654-706 | On success the brackets of every weight are in the plan; fails iff brackets collide or form a cycle. |
| `PlanBuild.AddDeleteResourcesOps` | pkg/plan/plan_build.go:268-304 | On success every deletion chain is in the plan; fails iff operations collide or form a cycle. |
| `PlanBuild.AddInstallResourceOps` | pkg/plan/plan_build.go:386-521 | On success every install chain is in the plan; fails iff operations collide or form a cycle. |
| `PlanRequest.LowestMatchIsLowest` | pkg/plan/plan_build.go:234-252 | A match is found iff an eligible info exists, and none has a lower iteration. |
| `Dependencies.DeletedMatchesExactly` | pkg/plan/plan_build.go:708-729 | Exactly the absence tracking, present in the plan, of matching deleted resources of the stage is found. |
| `Dependencies.FindMatch` | pkg/plan/plan_build.go:754-774 | The loop finds the first eligible info of lowest iteration. |
| `Dependencies.FindTrackAbsenceOpInStage` | pkg/plan/plan_build.go:708-752 | Deleted resources come first; only without them is a cleaned-up resource waited for. |
| `Dependencies.ConnectInternalDeployDependencies` | pkg/plan/plan_build.go:89-134 | Adds exactly the edges the dependencies ask for; every lookup succeeds, so it fails iff they close a cycle. |
| `Dependencies.ConnectInternalDeleteDependencies` | pkg/plan/plan_build.go:201-232 | The same for deletions, which wait for all matched operations. |
| `Builder.AddReleaseOperations` | pkg/plan/plan_build.go:167-199 | If each revision is dealt with once, no release operation is refused, which the source takes for granted. |
| `Builder.FrameFits` | pkg/plan/plan_build.go:51-64 | The stages, the weighted sub-stages and the release operations never collide and never form a cycle, so only resources can make a build fail. |
| `Builder.BuildPlan` | pkg/plan/plan_build.go:51-87 | Succeeds iff resource operations do not collide and dependencies contradict neither each other nor the stages; then the plan is the described graph, optimised. |
| `Collisions.NoCollisionsIff` | pkg/plan/plan.go:221-230 | Operations do not collide iff no resource is deleted twice and no two infos of one resource and iteration ask for the same, dependencies or not. |
| `Buildability.OrderlyBuilds` | pkg/plan/plan_build.go:51-87 | A request with dependencies is built if nothing collides, resources that share an external dependency share stage and weight, and resources can be given levels that rise along dependencies, along weights and along lists of external dependencies. |
| `Buildability.IndependentAlwaysBuilds` | pkg/plan/plan_build.go:51-87 | Resources that depend on nothing always get a plan, whatever their stages, weights, clean-ups and revisions. |
| `Buildability.BuildableIsValid` | pkg/plan/plan_build.go:51-87 | A buildable request describes a graph whose operations are keyed by their IDs and whose edges have both ends. |
| `StageOrder.StagesInOrder` | pkg/plan/plan_build.go:523-552 | In every built plan, before and after optimisation, everything in an earlier main stage precedes everything in a later one, and in a stage lower weights precede higher ones. |
| `StageOrder.StagesByName` | pkg/plan/plan_build.go:523-552 | Initial, pre-pre-uninstall, pre-pre-install, pre-install, pre-uninstall, install, uninstall, post-install, post-uninstall, post-post-install, post-post-uninstall and final stage follow one another in every plan. |
| `EmptyStages.PlacedOnce` | pkg/plan/plan.go:217-269 | In the described plan every operation stands in one stage or weight, also one that several resources share. |
| `EmptyStages.StageLeftIff` | pkg/plan/plan.go:293-361 | Exactly the stages and weights in which something is deployed, tracked, cleaned up, deleted or done with a revision have brackets in a plan built with final tracking. |
| `EmptyStages.IdleStagesGone` | pkg/plan/plan.go:293-361 | A weight or a main stage at which nothing happens has no bracket in a built plan. |
| `EmptyStages.BusyStagesStay` | pkg/plan/plan.go:293-361 | A weight or a stage with an operation in the plan has both brackets there, and so has the stage of the weight. |
| `PlanProperties.InstallOpStands` | pkg/plan/plan_build.go:386-521 | Every operation of every info is in the described plan as asked for, between the brackets of its stage. |
| `PlanProperties.ResourceOpsInOrder` | pkg/plan/plan_build.go:386-521 | Tracking each external dependency, shared or not, precedes the deploy operation, which precedes readiness tracking, which precedes the clean-up, which precedes tracking its absence. |
| `PlanProperties.DependencyEdgesExactly` | pkg/plan/plan_build.go:89-252 | Dependencies add an edge from one operation to another iff the latter deploys a resource with an automatic or manual dependency, or deletes one with a dependency, for which the former is what comes first, or for deletions all, of what the dependency finds. |
| `PlanProperties.DependencySurvives` | pkg/plan/plan_build.go:89-232 | Every edge added by a dependency survives optimisation as a precedence between two operations that are both still there. |
| `PlanProperties.DeployDependencyKept` | pkg/plan/plan_build.go:89-134 | A resource is deployed after the operation that each of its dependencies waits for. |
| `PlanProperties.DeleteDependencyKept` | pkg/plan/plan_build.go:201-232 | A resource is deleted after every operation that its dependencies wait for. |
| `PlanProperties.DeployWaitsForPresence` | pkg/plan/plan_build.go:234-252 | With an automatic or manual dependency on presence a resource is deployed after a matching one that is deployed in its stage, the first of the lowest iteration that matches. |
| `PlanProperties.DeployWaitsForReadiness` | pkg/plan/plan_build.go:754-774 | With one on readiness, after a matching tracked one of its stage, the first of the lowest iteration that matches, has become ready. |
| `PlanProperties.DeployWaitsForAbsence` | pkg/plan/plan_build.go:708-729 | With one on absence, after the absence of a matching one deleted in its stage, none listed before it, was seen. |
| `PlanProperties.DeletionWaitsForDeletions` | pkg/plan/plan_build.go:708-729 | A resource is deleted after the absence of every matching one that is deleted in its stage. |
| `PlanProperties.DeletionWaitsForCleanUp` | pkg/plan/plan_build.go:731-752 | Without the absence of a deleted one in the plan, it is deleted after the absence of a matching one cleaned up in its stage, the first of the lowest iteration that matches. |
| `PlanProperties.ReadyBeforeDeploy` | pkg/plan/plan_build.go:754-774 | With a manual ready dependency on a non-CRD resource of its stage that is installed or live, a resource is deployed after the readiness of a matching one was tracked, with or without final tracking. |
| `PlanProperties.IterationsInOrder` | pkg/plan/resource_info.go:905-922 | Deploying, tracking and cleaning up a resource in its earlier stage all precede everything done for it in its later stage. |
| `PlanProperties.PoliciesRespected` | pkg/plan/plan_build.go:386-521 | No plan creates, updates, recreates, applies or cleans up a resource whose policies forbid it. |
| `PlanProperties.ResourceOpOrigin` | pkg/plan/plan_build.go:268-304 | Every resource or tracking operation of a plan comes from a chain to delete or install a resource, and stands in the stage that chain gave it. |
| `FailurePlan.BuildFailurePlan` | pkg/plan/plan_build.go:24-44 | The plan is the optimised failure graph; it fails iff clean-ups collide, which never happens when iterations are unique. |
| `FailurePlan.FailureLookupsSucceed` | pkg/plan/plan_build.go:335-349 | On a plan built with final tracking, every lookup of the failure plan succeeds. |
| `FailurePlan.LookupIffResourceAfter` | pkg/plan/plan_build.go:335-336 | On a plan built without final tracking, the readiness lookup succeeds iff a resource operation comes after it. |
| `FailurePlan.LookupsSucceedIff` | pkg/plan/plan_build.go:329-352 | All lookups succeed iff final tracking was kept or every readiness operation looked up has a resource operation after it. |
| `FailurePlan.ReadyBeforeCleanup` | pkg/plan/plan_build.go:464-513 | A tracked resource is cleaned up only after it became ready. |
| `FailurePlan.CleanupNeverBegan` | pkg/plan/plan_build.go:340-352 | In no execution of any built plan, with or without final tracking, has the clean-up on success of a resource with failed readiness even begun. |
| `FailurePlan.FailurePlanDeletesExactly` | pkg/plan/plan_build.go:329-384 | After any execution of any built plan the failure plan deletes exactly the resources to be deleted on failure whose readiness failed, and none that a policy protects. |
| `Limits.ThirdOccurrenceCollides` | pkg/plan/resource_info.go:682-693 | Three infos of one resource: two of them get iteration 1. |
| `Limits.LoneResourceLookupFails` | pkg/plan/plan_build.go:329-338 | A plan without final tracking for a single resource to be deleted on failure lacks the operation its failure plan looks up. |
| `Limits.FullPoolForbids` | pkg/plan/plan_execute.go:79-99 | One worker, `c` after `a`, `b` after nothing: the order `a`, `c`, `b` respects precedence and cannot be produced. |
| `Limits.OptimizingTakesAway` | pkg/plan/plan.go:127-149 | One worker, `c` after `a`, `b` after `x`: `a`, `x`, `c`, `b` can be produced, but not what is left of it once `x` is squashed. |
| `Limits.OptimizingAdds` | pkg/plan/plan.go:127-149 | With `x` squashed `b`, `a`, `c` can be produced; no order of the unsquashed plan leaves it. |
| `ReleaseInfo.BuildReleaseInfos` | pkg/plan/release_info.go:42-115 | The infos of every deploy type: the new revision first, then the deployed ones to supersede; or all to remove, the last one as uninstalled. |
| `ReleaseInfo.InfosDistinct` | pkg/plan/release_info.go:42-115 | No revision is dealt with twice, whatever is deployed over an increasing history. |
| `History.History.CreateRelease` | pkg/release/history.go:46-60 | Appends a revision that storage does not have, and keeps list and storage in agreement. |
| `History.History.UpdateRelease` | pkg/release/history.go:115-135 | Replaces an existing revision in place, and keeps list and storage in agreement. |
| `History.History.DeleteRelease` | pkg/release/history.go:62-80 | Removes a revision that storage has, and keeps list and storage in agreement; for one it lacks, or if storage fails, nothing changes. |
| `History.History.FindAllDeployed` | pkg/release/history.go:82-103 | Exactly the deployed and superseded revisions with no uninstalled or uninstalling one at or after them. |
| `History.History.FindRevision` | pkg/release/history.go:105-109 | Found iff the revision is in the history. |
| `History.EffectLookup` | pkg/release/history.go:46-135 | A release operation changes the status of its own revision and of no other. |
| `ReleaseRuns.RunState` | pkg/plan/plan_build.go:554-652 | In every order that puts initial operations before final ones each operation is possible, and the status of every revision is the one that the operations done so far give it. |
| `ReleaseRuns.OrdersCommute` | pkg/plan/plan_build.go:554-652 | Release operations commute: any two such orders of the same operations leave the same history. |
| `History.LookupsDetermine` | pkg/release/history.go:36-44 | Histories in revision order that give every revision the same status are the same. |
| `ReleaseLifecycle.ExecutionHistory` | pkg/plan/plan_execute.go:326-380 | At every moment of every execution of every built plan, every release operation that has taken effect was possible and each revision has the status that these give it; they are the completed ones and those whose worker has yet to report completion, of which none is left after the return. |
| `ReleaseLifecycle.ExecutionsAgree` | pkg/plan/plan_execute.go:54-124 | Any two executions of a plan, at any two moments, in which the same operations have taken effect have left the same history; so have two with the same statuses and no completion yet to be reported. |
| `ReleaseLifecycle.RevisionsFrameResources` | pkg/plan/plan_build.go:554-652 | In every built plan every operation on a resource comes after the initial operation of every revision and before its final one. |
| `ReleaseLifecycle.RecordedThroughout` | pkg/plan/plan_execute.go:326-380 | In every execution of an install, upgrade or rollback nothing is done to a resource before the new revision is recorded, and that revision is deployed, and others superseded, only once everything has been done. |
| `ReleaseLifecycle.MarkedBeforeCleanUp` | pkg/plan/plan_build.go:24-44 | A failure plan marks revisions as failed before it cleans anything up. |
| `ReleaseLifecycle.DuringDeploy` | pkg/plan/plan_build.go:554-617 | At every moment of an install, upgrade or rollback the new revision is missing, pending install, upgrade or rollback, or deployed, as its operations have taken effect; a formerly deployed one is superseded once that has; nothing else changes. |
| `ReleaseLifecycle.DuringUninstall` | pkg/plan/plan_build.go:619-652 | At every moment of an uninstall each revision is as it was, being uninstalled if it is the last one and was marked, or gone once deleted. |
| `ReleaseLifecycle.SuccessfulDeploy` | pkg/plan/plan_build.go:554-617 | After a successful install, upgrade or rollback the new revision is deployed, every formerly deployed one is superseded, and all others are unchanged. |
| `ReleaseLifecycle.SuccessfulUninstall` | pkg/plan/plan_build.go:619-652 | After a successful uninstall the history is empty. |
| `ReleaseLifecycle.FailurePlanPossibleIff` | pkg/plan/plan_build.go:136-165 | All marks of a failure plan are possible iff no revision that it is to mark has been deleted. |
| `ReleaseLifecycle.FailurePlanSucceedsIff` | pkg/plan/plan_build.go:136-165 | The marks of the failure plan of an install, upgrade or rollback are always possible; those of an uninstall iff the final deletion of the last revision had not completed. |
| `ReleaseLifecycle.FailureDeploysNothing` | pkg/plan/plan_build.go:136-165 | After a failure and its failure plan, whatever is deployed was deployed before, and only the revision of the failed action can be new. |
| `ReleaseLifecycle.FailedDeploy` | pkg/plan/plan_build.go:136-165 | After a failed install, upgrade or rollback and its failure plan the new revision has failed, if it was created at all, and all others are as they were, or superseded if that had taken effect. |
| `ReleaseLifecycle.DeploymentKeepsGood` | pkg/action/release_install.go:308-345 | Any kind of deployment, succeeding or failing, keeps revisions increasing and at most one of them deployed. |
| `ReleaseLifecycle.ActionKeepsGood` | pkg/action/release_install.go:622-656 | So does an action with its automatic rollback. |
| `ReleaseLifecycle.HistoriesStayGood` | pkg/action/release_install.go:313-316 | Over every sequence of actions from an empty history, revisions are strictly increasing and at most one is deployed after every action. |
| `Reporter.BuildProgressReport` | pkg/plan/legacy_progress_reporter.go:176-215 | A report is the frozen stages, unchanged, and the current one, where an operation waits for its predecessors not shown as completed. |
| `Reporter.BuildStageReport` | pkg/plan/legacy_progress_reporter.go:217-233 | A frozen stage shows every row, waiting for nothing. |
| `Reporter.LegacyProgressReporter.ReportStatus` | pkg/plan/legacy_progress_reporter.go:32-44 | Changes one row and sends a report; an operation without a row is ignored. |
| `Reporter.LegacyProgressReporter.StartStage` | pkg/plan/legacy_progress_reporter.go:74-156 | Freezes the current stage; the new table has a pending row for every resource or tracking operation, linked to its predecessors' rows, and besides these exactly one completed row for every live resource that no operation touches. |
| `ReporterRuns.ReportsAreConsistent` | pkg/plan/legacy_progress_report.go:45-53 | In every interleaving of loop, workers and their reports, whatever is shown as progressing, completed or failed waits for nothing. |
| `ReporterRuns.ReportsAreTrue` | pkg/plan/legacy_progress_reporter.go:176-215 | In every interleaving an operation is shown as waiting for exactly those that come right before it and are not shown as completed; what is shown as completed or failed is so, and what is shown as progressing has begun. |
| `ReporterRuns.ReportShows` | pkg/plan/plan_execute.go:107-120 | Once its worker has reported, an operation that runs is shown as progressing, and one that has ended as completed or failed. |
| `ReporterRuns.FinalReportIsExact` | pkg/plan/plan_execute.go:107-120 | Once execution has returned, every completed operation is shown as completed, every failed one as failed, and every other one as pending. |
| `ReporterRuns.FrozenAsEnded` | pkg/plan/legacy_progress_reporter.go:217-233 | And so it is shown once the stage is frozen, waiting for nothing. |
| `ReporterRuns.RowsOfBuiltPlan` | pkg/plan/legacy_progress_reporter.go:84-104 | The table of a built plan has a row for every operation on a resource and for no other. |
| `ReporterRuns.LiveResourcesShown` | pkg/plan/legacy_progress_reporter.go:106-133 | Every live resource the plan is about has a row; if no operation touches it, a completed one. |
| `ReporterRuns.FrozenStagesNeverChange` | pkg/plan/legacy_progress_reporter.go:74-78 | Over every sequence of calls, the frozen stages of a report are in every later report, unchanged. |
| `ReporterRuns.BuiltReportable` | pkg/plan/legacy_progress_report.go:32-43 | Every operation of a built plan that gets a row is about a resource, so making its reference cannot panic. |

## Left out

- Kubernetes calls, the client cache, dry-run apply and diffs, kubedog trackers: a decision takes their answers as inputs, and an operation is reduced to taking effect and completing, or failing without effect.
- Operation IDs are structured values (type, version, iteration, configuration) instead of formatted strings; this takes for granted that the formatting is injective and that no other no-op is named like a stage bracket.
- The graph library is modelled by what it promises: unique vertices, edges between vertices, no cycles; transitive reduction is written out.
- JSON text, the sort order of a listing and the tags of an operation's configuration; only what is listed matters.
- Sorting: weights are inserted in order and infos are put in stage order by insertion; the order of infos within a stage (by weight and name in the source) is left open, since no property depends on it.
- Annotation parsing, dependency detection and matchers: a dependency is the set of resource IDs it matches.
- The decision which resources of an earlier release are to be deleted, deduplicating them, and removing those whose live object is also installed: deletable infos are inputs, and `Promises.HasWhatIsAsked` and `PlanProperties.PoliciesRespected` therefore name the case that the same resource is also to be deleted.
- A resource deleted in the initial or the final stage, which the source never asks for: `ReleaseLifecycle.RevisionsFrameResources` excludes it.
- A dependency of a deletable resource on anything but absence, a clean-up in the pre-pre-install stage, a revision dealt with twice, and a missing readiness operation make the source panic; they are preconditions.
- `Buildability.OrderlyBuilds`: sufficient only, because a dependency waits for one of the infos it matches while the condition is about all of them, and because external dependencies shared across stages or weights can also work out.
- Dependency edges are collected before they are connected; since finding them reads only vertices, the outcome is the same.
- `PoolRoom.ProducesIffStartOrder`: for limits above one, room is sufficient but not necessary, since a worker that has not completed yet can keep others from being submitted; which single orders are possible is exact for every limit (`Rounds.ProducesIffInRounds`).
- `OptimizedOrders.OptimizeKeepsStartOrders`: sufficient only, because what a plan without room loses or gains by squashing depends on which operations are squashed.
- `OptimizedOrders.OptimizeKeepsBegun`: sufficient only, for the same reason.
- Channel capacity, dropped reports, sleeping and timeouts; the completion queue is unbounded and reports are the sequence of those built.
- `History.History.DeleteRelease`: for a revision that storage lacks, the source panics, since it formats its error from the release that storage did not return (pkg/release/history.go:66-69); here the call fails and changes nothing.
- Release storage drivers, history limits, timestamps and the contents of a release; a storage fault is an input of each call, and reading a history sorts it by revision outside this model.
- `ReleaseLifecycle.HistoriesStayGood`: assumes, as the property does, that when an action fails its failure plan is built and executed successfully (when that is possible is `ReleaseLifecycle.FailurePlanSucceedsIff`); what a failing storage leaves behind is not modelled.
- `ReporterRuns.ReportsAreConsistent`: object references are resource IDs, so namespace resolution is not modelled, and what an operation waits for is a set without an order.
- Chart rendering, plan artifacts, locking, the CLI, logging and printing.
