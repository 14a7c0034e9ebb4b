# Routecraft: a verified model of the routing core

A Dafny 4.11 model of the parts of Routecraft where ordering, sharing and
interleaving decide correctness, with proofs of what those parts promise.
`dafny verify dfyconfig.toml` checks the whole project.

| file | models |
|---|---|
| `ProjectDiscoverers.dfy` | the registry of project discoverers, their stable topological order, and the search for the folders on a cycle |
| `ConfigMerge.dfy` | the recursive merge of discovered configuration, and threading fragments through it |
| `ContextSteps.dfy`, `ContextInvariants.dfy`, `ContextProper.dfy`, `ContextLifecycle.dfy`, `ContextPromises.dfy` | the context's boot, start and two-stage shutdown as a transition system whose steps are the stretches between awaits; what every state and every event of a run satisfies; the theorems about whole runs |
| `ContextObject.dfy` | the context object that runs those steps |
| `RouteCalls.dfy`, `RouteReading.dfy`, `RouteBuilding.dfy`, `SplitBalance.dfy` | the fluent builder as a machine over calls, the declarative reading of a chain, and the split/aggregate check |
| `RouteIntake.dfy`, `RouteDrain.dfy` | one route's sources, readiness and abort signals; draining in-flight work and deferred holds |
| `ExchangeIdentity.dfy` | frozen exchange wrappers that share one mutable internals object |
| `HeadingText.dfy` | the scanner that reads a heading's direct text |
| `ErrorRegistry.dfy` | the process-wide registry of error codes |
| `ModuleDiscovery.dfy` | the walk that finds a project's modules |
| `ToolNames.dfy` | composing, splitting and validating tool names |
| `Basics.dfy`, `JsText.dfy` | optional values and sequence facts; JavaScript strings as sequences of 16-bit code units, their order and sorting |

Code that updates state is modelled by classes and loops, each proved against a
specification (a function, or a log of events); the theorems are lemmas about
that specification. A `Promise`, a timer or an `AbortController` is a step that
may happen whenever the code allows it. `randomUUID()` is a value nobody held
before. Values the code treats as opaque (handlers, adapters, bodies, metadata)
are numbers.

## What the proofs found

- `mergeRecords` is not associative in general. `MergeAssociativeIff` gives the
  exact condition; `ClashBreaksAssociativity` gives a record/scalar/record
  clash. Reading `target["__proto__"]` answers `Object.prototype`, itself a
  mergeable record, so an own key of that name in a fragment is one more case
  of the condition.
- `initPlugins` does not look at `hasStopped`. `LateApplyIsNeverTornDown` is a
  run in which a stop completes while a plugin is still in `apply`: the plugin
  is applied afterwards and never torn down, and `context:starting` and
  `context:started` follow `context:stopped`. The teardown guarantee is exact:
  a plugin with a `teardown` is torn down if and only if its `apply` returned
  before the teardown walk passed it.
- `run` asks whether `initPlugins` was called, not whether it is over. A `start()`
  that comes while plugins are being applied announces the start and launches
  start hooks before they have (`HookBeforeApply`; exactly then, by
  `AnnouncedUnappliedIff`). A start is announced on a stopped context exactly when
  the stop found `run` waiting for `initPlugins` (`AnnouncedAfterStopIff`).
- A plain object spread from an exchange carries the internals (an enumerable
  symbol key) but not the `id` getter, so rewrapping one mints a new id, or keeps
  one user code put there: `TwoIdsInOneClass` ends with two ids in one class.
- The hand-off slot is filled before the body is read, so a getter on the body can
  come between, although packages/routecraft/src/exchange.ts:776-786 says that
  nothing can. An exchange constructed in the getter takes the internals
  (`GetterTakesInternals`), and a getter that throws leaves them for whatever is
  constructed next (`ThrowingGetterLeaks`). `SlotEmptyIff` and
  `HandOffArrivesIff` say exactly when the slot does its work, and
  `ClassSharesOneId` exactly when a class has one id.
- `endOfCodeSpan` may be asked about a run of backticks that is only the rest of
  one: behind an unmatched front (`UnmatchedRunOpensShorterSpan`), or behind an
  escaped one (`EscapedFrontOpensSpan`). `BacktickRunIsRead` says how a reading
  takes any run it reaches, and `OpensInsideStringIff` which backtick strings of a
  heading, in the sense of section 6.1 of CommonMark 0.31.2 (neither preceded nor
  followed by a backtick, escaped or not), get a span opened behind their front.
- All copies of the package in a process share one error registry, filled by the
  first copy that asks. A second, newer copy does not add its own core codes, so
  its `rcError` throws RC9901 for them (`CoreCodeFoundIff`,
  `NewerCopyMayMissItsCode`).
- Registering a folder that waits on itself deadlocks the sort, which is the only
  way a folder nobody names can disturb the others (`UnnamedRegistrationIsStable`).

## Model

| member | source | states |
|---|---|---|
| `ProjectDiscoverers.RegisteredPositions` | packages/routecraft/src/project-discoverer.ts:165-175 | re-registering a folder replaces its entry where it stands, a new folder goes last, every other entry keeps its place |
| `ProjectDiscoverers.RegisteredDistinct` | packages/routecraft/src/project-discoverer.ts:165-175 | no registration ever gives the registry a folder twice |
| `ProjectDiscoverers.DependenciesMetByPosition` | packages/routecraft/src/project-discoverer.ts:193-221 | "dependencies met" means that every registered `after` folder of an entry stands at an earlier position; an unregistered one counts as met |
| `ProjectDiscoverers.ScheduleCompletes` | packages/routecraft/src/project-discoverer.ts:193-221 | if any arrangement of the pending entries meets all dependencies, always taking the earliest ready entry never gets stuck |
| `ProjectDiscoverers.ScheduleLeast` | packages/routecraft/src/project-discoverer.ts:193-221 | against any arrangement that meets all dependencies, the sort's is the same or first differs in running an earlier registration |
| `ProjectDiscoverers.RunOrderLeast` | packages/routecraft/src/project-discoverer.ts:187-222 | what is returned is a permutation of the registry with every registered dependency first, and the lexicographically least one by registration index |
| `ProjectDiscoverers.CyclesAreBlocked` | packages/routecraft/src/project-discoverer.ts:200-216 | the folders that reach themselves in the whole registry are those that reach themselves among the entries left at a deadlock |
| `ProjectDiscoverers.DeadlockHasCycle` | packages/routecraft/src/project-discoverer.ts:200-216 | a deadlock always contains a real cycle, so the reported list is never empty |
| `ProjectDiscoverers.ReturnsIffAcyclic` | packages/routecraft/src/project-discoverer.ts:200-216 | a run order is returned if and only if the `after` graph on registered folders is acyclic |
| `ProjectDiscoverers.UnnamedRegistrationIsStable` | packages/routecraft/src/project-discoverer.ts:193-221 | inserting, at any registration position, a folder nobody names in `after` leaves the relative run order of all others unchanged |
| `ProjectDiscoverers.SelfDependencyDeadlocks` | packages/routecraft/src/project-discoverer.ts:193-221 | an entry that waits on itself makes the sort fail |
| `ProjectDiscoverers.CycleSearch.Reaches` | packages/routecraft/src/project-discoverer.ts:239-252 | the depth-first search with its shared visited set: true only with a walk of one or more edges, false only when every newly visited node has been searched completely |
| `ProjectDiscoverers.SearchedFromStart` | packages/routecraft/src/project-discoverer.ts:239-252 | a search that started with nothing visited and answered false rules out every walk to the target |
| `ProjectDiscoverers.FolderOnCycle` | packages/routecraft/src/project-discoverer.ts:253-260 | a folder is kept if and only if it reaches itself by one or more edges, so a bridge between cycles is excluded |
| `ProjectDiscoverers.CycleMembers` | packages/routecraft/src/project-discoverer.ts:239-260 | the folders on a cycle, all of them and no others, sorted |
| `ProjectDiscoverers.Registry.Register` | packages/routecraft/src/project-discoverer.ts:165-175 | the registry object changes as `Registered` says |
| `ProjectDiscoverers.Registry.FindReady` | packages/routecraft/src/project-discoverer.ts:194-199 | the earliest entry whose registered dependencies are all done, or none |
| `ProjectDiscoverers.Registry.GetProjectDiscoverers` | packages/routecraft/src/project-discoverer.ts:187-222 | returns the least run order exactly when the graph is acyclic; otherwise the error names exactly the folders that reach themselves in the whole registry, at least one |
| `ConfigMerge.AbsorbedIff` | packages/routecraft/src/project-discoverer.ts:329-350 | when merging a value onto an earlier one gives just that value, read off the two |
| `ConfigMerge.CombineAssociativeIff` | packages/routecraft/src/project-discoverer.ts:341-347 | the three-way choice at one key is associative exactly when the values do not clash |
| `ConfigMerge.MergeAssociativeIff` | packages/routecraft/src/project-discoverer.ts:329-350 | for all configurations, merging is associative if and only if nothing clashes at any depth, the inherited `__proto__` getter included |
| `ConfigMerge.ClashBreaksAssociativity` | packages/routecraft/src/project-discoverer.ts:341-347 | a record, a scalar and a record at one key: the two groupings differ |
| `ConfigMerge.CompatibleMergeAssociative` | packages/routecraft/src/project-discoverer.ts:299-307 | any three pairwise shape-compatible configurations merge associatively |
| `ConfigMerge.ThreadingIsMergingFirst` | packages/cli/src/start.ts:292-308 | threading any number of pairwise compatible fragments through the configuration equals merging the fragments first and applying the result once |
| `ConfigMerge.NoBaseKeyLost` | packages/routecraft/src/project-discoverer.ts:329-350 | no key the project declared disappears, whatever fragments follow |
| `ConfigMerge.BaseArrayIsPrefix` | packages/routecraft/src/project-discoverer.ts:343-344 | a declared array met by arrays or nothing stays a prefix of the result |
| `ConfigMerge.MergeRecords` | packages/routecraft/src/project-discoverer.ts:329-350 | the loop over the fragment's keys, in any order, computes the merge |
| `ConfigMerge.MergeRules` | packages/routecraft/src/project-discoverer.ts:281-350 | the rules of the merge, key by key: nothing given, two plain records, two arrays, anything else |
| `ConfigMerge.SilentKeeps` | packages/routecraft/src/project-discoverer.ts:329-350 | what a fragment says nothing about stays as it was, at any depth |
| `ConfigMerge.GivenPrevails` | packages/routecraft/src/project-discoverer.ts:329-350 | a scalar a fragment gives, at any depth, is in force afterwards |
| `ConfigMerge.ApplyDiscoverers` | packages/cli/src/start.ts:287-318 | there is a sequence of configurations from the declared one to the result, one step per discoverer: an absent folder changes nothing, a present one's fragment, computed from the configuration so far, is merged in; a present folder nobody can load is refused |
| `SplitBalance.CountDepth` | packages/routecraft/src/builder.ts:450-457 | the loop computes the saturating counter |
| `SplitBalance.DepthIsLargestSuffixExcess` | packages/routecraft/src/builder.ts:450-457 | the counter ends at the maximum over all suffixes of splits minus aggregates |
| `SplitBalance.DepthZeroIffMatched` | packages/routecraft/src/builder.ts:450-468 | the check passes if and only if every split can be matched to an aggregate of its own further down |
| `SplitBalance.ResolveSuspends` | packages/routecraft/src/suspension/sites.ts:307-346 | the walk over a route's steps refuses exactly when a suspend stands inside a fan-out, and otherwise lists the places of all suspends in order |
| `SplitBalance.RevivableIffMatchedBefore` | packages/routecraft/src/suspension/sites.ts:321-332 | a suspend is allowed if and only if every split before it is matched to an aggregate of its own before it |
| `RouteCalls.AddTagsContents` | packages/routecraft/src/builder.ts:745-759 | tags accumulate: earlier ones stay in front, none twice, none lost, none invented |
| `RouteCalls.StageDeclared` | packages/routecraft/src/builder.ts:761-777 | staging a call on what the earlier calls declare gives what all of them declare, and is refused exactly for a second input, a second output or a blank tag |
| `RouteCalls.FirstDeclaredOutermost` | packages/routecraft/src/step-builder-base.ts:282-291 | the descending fold nests the wrappers with the first-declared outermost |
| `RouteCalls.LayersInOrder` | packages/routecraft/src/step-builder-base.ts:282-291 | a wrapped step has its wrappers in declared order from the outside in, and keeps its operation |
| `RouteCalls.WhatASettingDoes` | packages/routecraft/src/builder.ts:861-879 | which calls wrap the next step, when, and which are refused, setting by setting |
| `RouteCalls.WhatMetadataDoes` | packages/routecraft/src/builder.ts:713-777 | a second input and a blank tag are refused, anything else is staged |
| `RouteCalls.WhatAStepDoes` | packages/routecraft/src/builder.ts:1414-1431 | which error a step meets without a route, with options staged, or with wrappers waiting in front of an operation that cannot be wrapped |
| `RouteCalls.WhatASourceDoes` | packages/routecraft/src/builder.ts:1214-1250 | when a route cannot be opened, and that opening one leaves all earlier ones as they were |
| `RouteBuilding.ChainIsItsReading` | packages/routecraft/src/builder.ts:1725-1771 | for every chain of calls: `build()` succeeds if and only if the chain parses as segments (staging calls, from, (wrappers, step)*) within the once-only rules, with every suspend on the main flow and cached routes ending in one result, and the routes are those the parse describes, so nothing leaks from one route or step to another |
| `RouteBuilding.CacheableIffMatched` | packages/routecraft/src/builder.ts:433-468 | a route that caches its result is accepted exactly when it has no suspend and its splits are matched |
| `RouteBuilding.NoObjectionIffBuildable` | packages/routecraft/src/builder.ts:1725-1758 | the checks of `build()` raise nothing exactly when, in every segment, suspends stand on the main flow and cached routes end in one result |
| `RouteBuilding.ReadingsAgree` | packages/routecraft/src/builder.ts:1214-1367 | two parses of one chain describe the same routes |
| `RouteBuilding.RouteIsAsSaid` | packages/routecraft/src/builder.ts:1214-1367 | setting by setting, what an accepted chain makes of each route: authorizers, throttles and concurrency limits keep all values in order, of the others the last counts |
| `RouteBuilding.ChainRefusedBy` | packages/routecraft/src/builder.ts:1725-1771 | a chain is refused by its first refused call, or else by `build()`, and with that error |
| `RouteBuilding.RouteBuilder.SetId` | packages/routecraft/src/builder.ts:660-665 | stages the id, or is refused when a step wrapper is waiting; a refusal changes nothing |
| `RouteBuilding.RouteBuilder.MergeDiscovery` | packages/routecraft/src/builder.ts:761-777 | title, description and output; a second output is refused |
| `RouteBuilding.RouteBuilder.DeclareInput` | packages/routecraft/src/builder.ts:713-718 | the input schema, once per route |
| `RouteBuilding.RouteBuilder.AddTag` | packages/routecraft/src/builder.ts:745-759 | the loop adds each new tag once; a blank tag refuses the call |
| `RouteBuilding.RouteBuilder.SetBatch` | packages/routecraft/src/builder.ts:797-811 | stages the batch consumer |
| `RouteBuilding.RouteBuilder.AddAuthorizer` | packages/routecraft/src/builder.ts:1159-1168 | authorizers stack in call order |
| `RouteBuilding.RouteBuilder.DualMode` | packages/routecraft/src/builder.ts:861-879 | before `.from()`, or while options are staged, the call configures the next route; otherwise it wraps the next step |
| `RouteBuilding.RouteBuilder.DelayNext` | packages/routecraft/src/step-builder-base.ts:389-394 | always a step wrapper |
| `RouteBuilding.RouteBuilder.OpenRoute` | packages/routecraft/src/builder.ts:1214-1367 | the staged options go to exactly this route and are gone afterwards; refused with wrappers waiting, without sources, or with several sources and no input body schema |
| `RouteBuilding.RouteBuilder.ApplyPendingWrappers` | packages/routecraft/src/step-builder-base.ts:282-291 | the loop computes the fold and empties the stack, or refuses a split, aggregate, debounce or suspend step |
| `RouteBuilding.RouteBuilder.PushStep` | packages/routecraft/src/builder.ts:1414-1431 | the step, with its wrappers, is appended in place to the current route only |
| `RouteBuilding.RouteBuilder.Build` | packages/routecraft/src/builder.ts:1725-1758 | refuses leftover options, leftover wrappers, and the first route whose suspends or cached splits stand in the way; otherwise hands out the routes |
| `RouteBuilding.RouteBuilder.Check` | packages/routecraft/src/builder.ts:1740-1752 | RC5051 exactly for a suspend inside a fan-out, else RC5003 exactly for a cached route with a suspend or an unmatched split |
| `ContextLifecycle.EveryRunIsProper` | packages/routecraft/src/context.ts:1108-1230 | in every interleaving of boot, start, stop, timers and route work, every event has behind it exactly what `Proper` demands of it |
| `ContextLifecycle.TeardownsDescend` | packages/routecraft/src/context.ts:1309-1324 | plugins are torn down in strictly descending index order, hence at most once each, and only if their `apply` had returned before |
| `ContextLifecycle.HooksAscend` | packages/routecraft/src/context.ts:744-766 | `plugin:starting` comes in registration order, at most once each, never before the readiness gate settles and never after `stop()` |
| `ContextLifecycle.ReadinessSettlesOnce` | packages/routecraft/src/context.ts:586-609 | readiness settles at most once |
| `ContextLifecycle.ReadinessSettles` | packages/routecraft/src/context.ts:1108-1230 | on every way out of the boot and on every stop readiness has settled, and before that it has not: rejected, not resolved, when `run` throws or unwinds; resolved only with every start hook returned; otherwise rejected only by a stop |
| `ContextLifecycle.AppliedBeforeStopIsTornDown` | packages/routecraft/src/context.ts:1366-1421 | once `context:stopped` is emitted, every plugin with a teardown that applied before `stop()` has been torn down |
| `ContextLifecycle.GracefulNeverAborts` | packages/routecraft/src/context.ts:1366-1477 | a shutdown that reports forced=false never aborts any route's execution, neither before nor after |
| `ContextLifecycle.StoppedReportsTheRace` | packages/routecraft/src/context.ts:1382-1420 | forced is reported exactly when the deadline fired before the drain settled; `pending` then lists, in ascending order, exactly the routes with more arrivals than settlements at the one instant execution was forced, and is empty otherwise; `context:stopped` comes once, after all teardowns and callbacks |
| `ContextLifecycle.ClosedIsAnnounced` | packages/routecraft/src/context.ts:1366-1421 | a shutdown is over if and only if `context:stopped` has been emitted |
| `ContextLifecycle.SettledDrainSawEveryRouteIdle` | packages/routecraft/src/context.ts:1382-1400 | a shutdown that is neither forced nor failed to drain has seen every route with nothing in flight at some instant after the stop began |
| `ContextLifecycle.LateApplyIsNeverTornDown` | packages/routecraft/src/context.ts:514-560 | a concrete run: a stop completes during an `apply`, whose plugin is then never torn down, and the start is announced on the stopped context |
| `ContextLifecycle.AnnouncedAfterStopIff` | packages/routecraft/src/context.ts:1108-1136 | over every run `context:starting` follows `context:stopping` if and only if the stop found `run` waiting for `initPlugins`, which then ended well with nothing to refuse the start |
| `ContextLifecycle.AnnouncedUnappliedIff` | packages/routecraft/src/context.ts:1111-1118 | over every run the start is announced before every plugin has applied if and only if `start()` came while somebody else's `initPlugins` was under way or had failed |
| `ContextLifecycle.HooksFollowApply` | packages/routecraft/src/context.ts:744-766 | in all other runs every plugin has applied before any start hook is launched |
| `ContextLifecycle.HookBeforeApply` | packages/routecraft/src/context.ts:1114-1116 | a concrete run: `start()` during `build()` launches a plugin's start hook before its `apply` has returned |
| `ContextPromises.StopClosesIntake` | packages/routecraft/src/context.ts:1375-1379 | in every run, a context that is stopping has closed the intake of every route |
| `ContextPromises.ForcedAbortsEveryRoute` | packages/routecraft/src/context.ts:1460-1479 | a shutdown reported as forced has aborted the execution of every route before it says so |
| `ContextPromises.CallbacksRunIff` | packages/routecraft/src/context.ts:1332-1343 | a completed shutdown has run exactly the teardown callbacks registered before the callback loop began |
| `ContextPromises.StoppedIff` | packages/routecraft/src/context.ts:1201-1223 | a context is stopped if and only if somebody called `stop()`, a start hook failed, or every route came to its end and no plugin keeps it alive |
| `ContextPromises.TeardownsAnnounced` | packages/routecraft/src/context.ts:1309-1326 | when no teardown throws, every plugin torn down is announced as stopped before the walk goes on |
| `ContextPromises.RunOutlastsShutdown` | packages/routecraft/src/context.ts:1176-1226 | `start()` comes back only when the shutdown it belongs to is over: always when it throws behind the announcement, and when it returns unless the context stays alive |
| `ContextObject.CraftContext.InitPlugins` | packages/routecraft/src/context.ts:514-562 | the loop from one plugin to its next await |
| `ContextObject.CraftContext.ApplyReturned` | packages/routecraft/src/context.ts:540-548 | the plugin counts as applied and the loop goes on |
| `ContextObject.CraftContext.Reject` | packages/routecraft/src/context.ts:599-609 | settles readiness as refused, unless it is settled already |
| `ContextObject.CraftContext.StartContext` | packages/routecraft/src/context.ts:1090-1106 | refused once stopped, joined once under way, else the boot begins |
| `ContextObject.CraftContext.BootRoutes` | packages/routecraft/src/context.ts:1122-1164 | the boot up to the readiness gate |
| `ContextObject.CraftContext.StartPlugins` | packages/routecraft/src/context.ts:744-766 | the hook loop, which looks at `hasStopped` before each hook |
| `ContextObject.CraftContext.HookReturned` | packages/routecraft/src/context.ts:755-757 | the hook counts as started and the loop goes on |
| `ContextObject.CraftContext.FinishStarting` | packages/routecraft/src/context.ts:1192-1201 | readiness resolves and `startCompleted` is set, unless a stop came first |
| `ContextObject.CraftContext.StopContext` | packages/routecraft/src/context.ts:1273-1288 | the first call stops and closes the intake of every route, later calls join |
| `ContextObject.CraftContext.AbortIntake` | packages/routecraft/src/context.ts:1370-1379 | the loop closes intake on every route, in order, and touches no execution signal |
| `ContextObject.CraftContext.TeardownPlugins` | packages/routecraft/src/context.ts:1309-1331 | the descending loop to the next applied plugin with a teardown, reporting partial and started |
| `ContextObject.CraftContext.RunCallbacks` | packages/routecraft/src/context.ts:1332-1345 | teardown callbacks run last registered first |
| `ContextObject.CraftContext.TeardownReturned` | packages/routecraft/src/context.ts:1317-1325 | the plugin is stopped and the walk goes on below it |
| `ContextObject.CraftContext.ForceStageTwo` | packages/routecraft/src/context.ts:1460-1479 | reports exactly the routes with work in flight at that instant, then aborts execution on all routes |
| `ContextObject.CraftContext.ContinueShutdown` | packages/routecraft/src/context.ts:1385-1421 | forced exactly when the deadline won the race; then teardown begins |
| `RouteIntake.Route.Wire` | packages/routecraft/src/route.ts:951-963 | a source beside siblings gets a child signal, aborted at once if the route's intake is already closed |
| `RouteIntake.Route.MarkReady` | packages/routecraft/src/route.ts:812-821 | the readiness set grows; the route is announced when it becomes full for the first time |
| `RouteIntake.Route.AbortIntake` | packages/routecraft/src/route.ts:951-963 | intake closes once, every child hears it, execution is left alone |
| `RouteIntake.Route.AbortExecution` | packages/routecraft/src/route.ts:634-638 | idempotent |
| `RouteIntake.Route.Complete` | packages/routecraft/src/route.ts:863-876 | beside siblings a completion aborts only its own signal; a single source's closes the route's intake |
| `RouteIntake.Route.Settle` | packages/routecraft/src/route.ts:898-914 | records the outcome, and announces a rejection unless the source's signal was aborted |
| `RouteIntake.Route.WiringFails` | packages/routecraft/src/route.ts:917-925 | a source that throws while being wired makes the route give up intake and execution |
| `RouteIntake.Route.StartFails` | packages/routecraft/src/route.ts:917-925 | a rejected subscription makes the route give up intake and execution |
| `RouteIntake.Route.StartCompletes` | packages/routecraft/src/route.ts:927-942 | beside siblings the last completion closes intake and never execution |
| `RouteIntake.Route.Stop` | packages/routecraft/src/route.ts:1018-1027 | closes intake and abandons execution |
| `RouteIntake.MarkedCount` | packages/routecraft/src/route.ts:812-821 | the size of the readiness set reaches the number of sources exactly when every source is ready |
| `RouteIntake.EveryTraceTells` | packages/routecraft/src/route.ts:786-942 | over every trace of ready, complete, resolve, reject, failure, stop and outside aborts, the log is in order and says which sources are ready, whether the route started, and whether intake and execution are aborted |
| `RouteIntake.StartedIffAllReady` | packages/routecraft/src/route.ts:812-821 | over every trace `route:started` has fired if and only if every source has become ready |
| `RouteIntake.StartedWithTheLastSource` | packages/routecraft/src/route.ts:812-821 | it fires at most once, right behind the readiness of the last source, which no earlier moment had |
| `RouteIntake.SourceToldIff` | packages/routecraft/src/route.ts:951-963 | over every trace a source among siblings is told to stop if and only if it completed itself or the route's intake was closed |
| `RouteIntake.ExecutionDroppedIff` | packages/routecraft/src/route.ts:927-942 | over every trace execution is dropped if and only if the start failed, the route was stopped or an abort came from outside, never because sources completed |
| `RouteIntake.FailureAnnouncedWhileWanted` | packages/routecraft/src/route.ts:898-914 | a failed source is announced at most once, and never after it was told to stop |
| `RouteIntake.FailureAnnouncedIff` | packages/routecraft/src/route.ts:898-914 | over every trace a failed source is announced if and only if its subscription was rejected while nobody had told it to stop |
| `RouteIntake.AbortedForTheFirstReason` | packages/routecraft/src/route.ts:915-942 | over every trace intake is closed, and execution dropped, for the reason of the first stimulus that does so |
| `RouteDrain.Route.TrackTask` | packages/routecraft/src/route.ts:755-766 | the promise joins the in-flight set under an identity of its own |
| `RouteDrain.Route.Perform` | packages/routecraft/src/route.ts:755-766 | work that goes on tracks a task or leaves a hold, and nothing of it is lost |
| `RouteDrain.EveryPieceCounts` | packages/routecraft/src/route.ts:1260-1278 | the account counts every piece of work once: a job, what it tracks, what it leaves held |
| `RouteDrain.Route.Settle` | packages/routecraft/src/route.ts:764-765 | a settled promise, and no other, leaves the set |
| `RouteDrain.Route.Release` | packages/routecraft/src/route.ts:442-451 | a released hold becomes in-flight work; no work is lost |
| `RouteDrain.Route.RunDrainCallbacks` | packages/routecraft/src/route.ts:1284-1295 | every hold, in order, becomes in-flight work behind what was in flight already |
| `RouteDrain.Route.AwaitAllSettled` | packages/routecraft/src/route.ts:1269-1270 | however work and timers interleave meanwhile, and for however many steps more before the code goes on, the promises waited for are settled in the end, and every interleaving is finite |
| `RouteDrain.Route.Drain` | packages/routecraft/src/route.ts:1260-1278 | returns, for every finite tree of work and holds, and only with nothing in flight and nothing held, every piece of work having run to its end |
| `ExchangeIdentity.SharedInternalsIffSameClass` | packages/routecraft/src/exchange.ts:1021-1069 | over every history two exchanges hold the same internals object if and only if rewraps, spreads and hand-offs connect them |
| `ExchangeIdentity.InternalsOfOrigin` | packages/routecraft/src/exchange.ts:1021-1069 | every member of a class holds the internals of the exchange the class grew from |
| `ExchangeIdentity.RequiredHeadersDefined` | packages/routecraft/src/exchange.ts:844-885 | the four required headers are defined on every genuine exchange, even when explicitly given as undefined |
| `ExchangeIdentity.RewrapKeepsIdIff` | packages/routecraft/src/exchange.ts:1053-1069 | a rewrap keeps the id, whatever headers it is given, if and only if there was one to keep |
| `ExchangeIdentity.RewrapKeepsHeaders` | packages/routecraft/src/exchange.ts:1053-1069 | a rewrap takes over every other header it is given, or the previous exchange's when given none |
| `ExchangeIdentity.ConstructedHeaders` | packages/routecraft/src/exchange.ts:844-885 | a constructed exchange carries the headers it is given; a missing operation is `from` |
| `ExchangeIdentity.ConstructedIdsAreNew` | packages/routecraft/src/exchange.ts:868-877 | a missing id, route or correlation id is filled with a value no exchange carries, nor another header of its own |
| `ExchangeIdentity.ClassSharesOneId` | packages/routecraft/src/exchange.ts:1053-1069 | over every history the genuine members of a class share the id of the exchange it grew from if and only if everything rewrapped in it bore that id and whatever else took its internals out of the hand-off slot was given it |
| `ExchangeIdentity.TwoIdsInOneClass` | packages/routecraft/src/exchange.ts:1053-1069 | construct, spread, rewrap: two genuine exchanges of one class with different ids, whatever id (or none) the plain object carries |
| `ExchangeIdentity.OriginIsGenuine` | packages/routecraft/src/exchange.ts:1021-1069 | whatever has internals traces back to a genuine exchange |
| `ExchangeIdentity.CloneStartsAfresh` | packages/routecraft/src/exchange.ts:540-575 | a clone bears an id nobody bore, records whose snapshot it ultimately is, keeps every other header, the correlation id among them, and is in an earlier exchange's class if and only if that class's internals were left in the hand-off slot |
| `ExchangeIdentity.SlotEmptyIff` | packages/routecraft/src/exchange.ts:776-786 | over every history the slot is empty between operations if and only if a constructor has run since every rewrap that began to read its body |
| `ExchangeIdentity.SlotIs` | packages/routecraft/src/exchange.ts:776-786 | what waits in the slot is what the last rewrap to begin put there, provided no constructor has run since |
| `ExchangeIdentity.HandOffArrivesIff` | packages/routecraft/src/exchange.ts:1053-1069 | a rewrap whose body is read by a getter joins the class of what it rewraps if and only if nothing took the internals, or put others there, in the meantime |
| `ExchangeIdentity.GetterTakesInternals` | packages/routecraft/src/exchange.ts:1061-1067 | a getter that constructs an exchange: that one joins the class under another id, and the rewrap bears the id outside the class |
| `ExchangeIdentity.ThrowingGetterLeaks` | packages/routecraft/src/exchange.ts:1061-1067 | a getter that throws: the next exchange constructed anywhere joins the class of what was to be rewrapped |
| `ExchangeIdentity.FlaggedIff` | packages/routecraft/src/exchange.ts:592-595 | a class counts as marked exactly when some operation of the history marked one of its members |
| `ExchangeIdentity.LastSchemaIff` | packages/routecraft/src/exchange.ts:642-672 | the schema a class was last validated against is that of the last operation to validate one of its members |
| `ExchangeIdentity.Engine.NewExchange` | packages/routecraft/src/exchange.ts:844-953 | the constructor empties the hand-off slot first, even when it throws, and shares what was in it |
| `ExchangeIdentity.Engine.Construct` | packages/routecraft/src/exchange.ts:844-953 | takes the internals that wait in the slot, else starts a class; the slot is empty afterwards, even when construction throws |
| `ExchangeIdentity.Engine.Rewrap` | packages/routecraft/src/exchange.ts:1021-1069 | with plain data for a body: refused without internals; otherwise the new exchange joins the class, and the slot is empty afterwards |
| `ExchangeIdentity.Engine.BeginRewrap` | packages/routecraft/src/exchange.ts:1021-1064 | up to the reading of the body: refused without internals; otherwise the slot is full and the headers carry the previous id |
| `ExchangeIdentity.Engine.Clone` | packages/routecraft/src/exchange.ts:540-575 | a snapshot with an id of its own and every other header kept, in a class of its own unless the slot was full; a body that cannot be cloned leaves the slot as it was |
| `ExchangeIdentity.Engine.MakePlain` | packages/routecraft/src/brand.ts:77-83 | a plain object spread from an exchange shares its internals, an own enumerable key, and joins its class; any other plain object has none |
| `ExchangeIdentity.Engine.MarkDropped` | packages/routecraft/src/exchange.ts:592-595 | told of the whole class and of nobody else; nothing happens without internals |
| `ExchangeIdentity.Engine.MarkSuspended` | packages/routecraft/src/exchange.ts:682-685 | the same for the suspended flag |
| `ExchangeIdentity.Engine.MarkOutputValidated` | packages/routecraft/src/exchange.ts:642-648 | the last schema recorded for the class stays |
| `ExchangeIdentity.Engine.IsDropped` | packages/routecraft/src/exchange.ts:712-714 | true exactly when there are internals and some member of the class was marked dropped |
| `ExchangeIdentity.Engine.IsSuspendedRun` | packages/routecraft/src/exchange.ts:693-695 | true exactly when there are internals and some member of the class was marked suspended |
| `ExchangeIdentity.Engine.WasOutputValidated` | packages/routecraft/src/exchange.ts:667-672 | true exactly when the class was last validated against this very schema |
| `HeadingText.RunLength` | apps/routecraft.dev/scripts/generate-docs-catalogue.ts:174-178 | the length of the longest run of the character at the index |
| `HeadingText.EndOfCodeSpan` | apps/routecraft.dev/scripts/generate-docs-catalogue.ts:181-190 | the end of the first later backtick string of exactly the opening length (section 6.1 of CommonMark 0.31.2), or -1 when there is none |
| `HeadingText.EndOfBalanced` | apps/routecraft.dev/scripts/generate-docs-catalogue.ts:192-211 | the end of the shortest prefix whose unescaped brackets balance, or -1 when none does |
| `HeadingText.LiveIffEven` | apps/routecraft.dev/scripts/generate-docs-catalogue.ts:200-203 | a character is escaped exactly when an odd number of backslashes stands before it |
| `HeadingText.DepthCounts` | apps/routecraft.dev/scripts/generate-docs-catalogue.ts:192-211 | the depth is the number of unescaped opening brackets less that of unescaped closing ones |
| `HeadingText.EndOfLink` | apps/routecraft.dev/scripts/generate-docs-catalogue.ts:213-224 | a balanced label followed at once by a balanced destination or reference |
| `HeadingText.EndOfElement` | apps/routecraft.dev/scripts/generate-docs-catalogue.ts:228-238 | ends behind the first `>` when the tag is closing, self-closing or its closing tag does not occur later, and otherwise behind the first later occurrence of the closing tag of its name; -1 without a name or a `>` |
| `HeadingText.ElementEndsTag` | apps/routecraft.dev/scripts/generate-docs-catalogue.ts:228-238 | an element that ends takes at least two characters and ends with `>` |
| `HeadingText.EndOfEmphasis` | apps/routecraft.dev/scripts/generate-docs-catalogue.ts:240-256 | the first unescaped run of markers at least as long as the opening one; none for an underscore inside a word |
| `HeadingText.EmphasisIff` | apps/routecraft.dev/scripts/generate-docs-catalogue.ts:240-256 | emphasis ends behind the first unescaped place where as many markers stand in a row as opened it |
| `HeadingText.ConstructEndUnique` | apps/routecraft.dev/scripts/generate-docs-catalogue.ts:281-288 | the end of a construct is determined by the text and the position |
| `HeadingText.ConstructAdvances` | apps/routecraft.dev/scripts/generate-docs-catalogue.ts:290-295 | a construct that closes takes at least one character and ends within the heading, so the scan terminates |
| `HeadingText.HeadingText` | apps/routecraft.dev/scripts/generate-docs-catalogue.ts:266-301 | terminates on every string and returns the non-empty texts between the skipped constructs of the heading's reading, joined by one space |
| `HeadingText.ReadingUnique` | apps/routecraft.dev/scripts/generate-docs-catalogue.ts:266-301 | a heading has only one reading |
| `HeadingText.HeadingTextUnique` | apps/routecraft.dev/scripts/generate-docs-catalogue.ts:266-301 | so there is only one heading text |
| `HeadingText.ReadingTiles` | apps/routecraft.dev/scripts/generate-docs-catalogue.ts:266-301 | the stretches read, put together, are the heading: nothing is lost or read twice |
| `HeadingText.WordsAreKept` | apps/routecraft.dev/scripts/generate-docs-catalogue.ts:266-301 | the words joined are exactly the characters outside skipped constructs, in order, escapes resolved |
| `HeadingText.HeadingIsCut` | apps/routecraft.dev/scripts/generate-docs-catalogue.ts:266-301 | the text of a heading, cut at any construct its reading skips, is the text before it, one space, and the text behind it, or the only one that is not empty |
| `HeadingText.RenderedUncut` | apps/routecraft.dev/scripts/generate-docs-catalogue.ts:266-301 | where nothing is skipped every token gives one character: its own, or of an escape the second |
| `HeadingText.WhatOpens` | apps/routecraft.dev/scripts/generate-docs-catalogue.ts:274-297 | character by character, which construct the scanner looks for and what its token then is |
| `HeadingText.PlainHeadingIsItself` | apps/routecraft.dev/scripts/generate-docs-catalogue.ts:266-301 | a heading without markup characters is returned unchanged |
| `HeadingText.BacktickRunIsRead` | apps/routecraft.dev/scripts/generate-docs-catalogue.ts:181-190 | in every reading of every heading, a run of n backticks is read by the greatest length m up to n of a later backtick string: n - m backticks as text, then one span up to the first string of length m; all as text when there is none |
| `HeadingText.OpensInsideRunIff` | apps/routecraft.dev/scripts/generate-docs-catalogue.ts:181-190 | behind the front of a run the reading reaches, whether or not it is a whole backtick string, a span opens if and only if no later string is as long and some later one is shorter |
| `HeadingText.OpensInRunIff` | apps/routecraft.dev/scripts/generate-docs-catalogue.ts:181-190 | a span opens anywhere in such a run if and only if some later string is no longer |
| `HeadingText.OpensInsideStringIff` | apps/routecraft.dev/scripts/generate-docs-catalogue.ts:266-301 | for every heading and every backtick string in it: the scanner opens a span behind the string's first backtick, where section 6.1 of CommonMark 0.31.2 opens none, if and only if some later string is shorter and either the first backtick is escaped, or the scanner stops at it and no later string is as long |
| `HeadingText.EscapedFrontOpensSpan` | apps/routecraft.dev/scripts/generate-docs-catalogue.ts:274-288 | a concrete heading with an escaped first backtick: a span opens behind it although a string as long follows |
| `HeadingText.UnmatchedRunOpensShorterSpan` | apps/routecraft.dev/scripts/generate-docs-catalogue.ts:181-190 | a concrete heading where a span opens inside an unmatched run of backticks |
| `ErrorRegistry.EveryCodeHasOneNamespace` | packages/routecraft/src/error.ts:813-857 | in every reachable registry each code belongs to a claimed namespace and to no other |
| `ErrorRegistry.NamespacesAreWellFormed` | packages/routecraft/src/error.ts:773-784 | core's namespace stays core's, and every claimed namespace has the required shape |
| `ErrorRegistry.NamespaceShape` | packages/routecraft/src/error.ts:786-787 | a namespace is two to eight capital letters and digits, a letter first |
| `ErrorRegistry.CodeShape` | packages/routecraft/src/error.ts:836-843 | a code is its namespace and exactly four digits |
| `ErrorRegistry.OwnerNeverChanges` | packages/routecraft/src/error.ts:828-836 | a namespace is owned exactly when a registration of it went through, and every such registration was by the same owner |
| `ErrorRegistry.GoesThroughIff` | packages/routecraft/src/error.ts:818-844 | over every history a registration goes through if and only if its namespace is well-formed and not core's, its codes carry it, and nobody else claimed it before |
| `ErrorRegistry.CodesAreThoseInForce` | packages/routecraft/src/error.ts:845-856 | a namespace's codes and their metadata are exactly those of its last accepted registration |
| `ErrorRegistry.CoreNeverAltered` | packages/routecraft/src/error.ts:773-784 | core codes are those of the copy that initialised the registry, for ever |
| `ErrorRegistry.CoreCodeFoundIff` | packages/routecraft/src/error.ts:866-879 | a core code is found if and only if the initialising copy has it; with one copy of the package, always |
| `ErrorRegistry.NewerCopyMayMissItsCode` | packages/routecraft/src/error.ts:773-784 | a second copy's own new core code is not found once an older copy initialised the registry |
| `ErrorRegistry.Global.GetErrorRegistry` | packages/routecraft/src/error.ts:773-784 | created once, then the same object for ever |
| `ErrorRegistry.Global.RcError` | packages/routecraft/src/error.ts:735-751 | the registered metadata with the overrides, or RC9901 exactly when the code is unknown |
| `ErrorRegistry.OverridesWin` | packages/routecraft/src/error.ts:735-751 | an override that is given wins, the rest of the metadata stays |
| `ErrorRegistry.Global.RegisterErrorCodes` | packages/routecraft/src/error.ts:813-857 | a refused registration leaves the initialised registry as it was; an accepted one replaces exactly its namespace's codes |
| `ErrorRegistry.DeleteCodes` | packages/routecraft/src/error.ts:850-854 | the deleting loop removes exactly the namespace's codes |
| `ErrorRegistry.AddCodes` | packages/routecraft/src/error.ts:855-857 | the adding loop adds exactly the new codes |
| `ModuleDiscovery.CapabilityFile` | packages/cli/src/project.ts:95-101 | the first sentinel file in the order of the extensions, if any |
| `ModuleDiscovery.ImportableIff` | packages/cli/src/project.ts:68-72 | a module is a stem with one of six extensions that is neither a declaration nor a test |
| `ModuleDiscovery.SkippedIff` | packages/cli/src/project.ts:56-58 | hidden directories are skipped, and five named ones |
| `ModuleDiscovery.SentinelIff` | packages/cli/src/project.ts:95-101 | a directory is claimed by the first of `route.ts`, `route.mts`, ... that is a file in it |
| `ModuleDiscovery.RootModuleIff` | packages/cli/src/project.ts:120-134 | a module counts when it is a file or a link to one |
| `ModuleDiscovery.CollectModules` | packages/cli/src/project.ts:114-143 | the recursive loop computes the collection, each path spelled under its directory |
| `ModuleDiscovery.CollectedIff` | packages/cli/src/project.ts:114-143 | a path is collected exactly when going down it one directory at a time selects it |
| `ModuleDiscovery.SelectedIffListed` | packages/cli/src/project.ts:114-143 | which is: no skipped directory above it, and an importable module with no claimed directory between it and the root, or the sentinel that claims its directory |
| `ModuleDiscovery.RenderInjective` | packages/cli/src/project.ts:120-120 | different paths are spelled differently |
| `ModuleDiscovery.RenderAppend` | packages/cli/src/project.ts:120-120 | a path is spelled name by name, each behind a slash |
| `JsText.LessIff` | packages/cli/src/project.ts:84-88 | the order of paths: the first differing code unit decides, and a prefix comes first |
| `ModuleDiscovery.DiscoveredIff` | packages/cli/src/project.ts:151-161 | the result is strictly sorted and consists of exactly the listed files |
| `ModuleDiscovery.DiscoveryIgnoresListingOrder` | packages/cli/src/project.ts:84-88 | two listings of the same tree in any orders give the same result |
| `ModuleDiscovery.DiscoverCapabilityModules` | packages/cli/src/project.ts:151-153 | the walk with sentinels, sorted |
| `ModuleDiscovery.DiscoverPluginModules` | packages/cli/src/project.ts:159-161 | the walk without sentinels, sorted |
| `ToolNames.SplittableIff` | packages/ai/src/tool-name.ts:130-137 | a nonempty head is accepted if and only if for every tail the first separator of the composed name comes right after the head |
| `ToolNames.SplitUndoesComposeIff` | packages/ai/src/tool-name.ts:98-118 | splitting gives back head and tail if and only if the head is accepted |
| `ToolNames.ComposeInjective` | packages/ai/src/tool-name.ts:98-118 | two pairs with accepted heads never compose to one name |
| `ToolNames.ComposeUndoesSplit` | packages/ai/src/tool-name.ts:98-118 | what a name splits into composes back to it, and a nonempty head found so is an accepted one |
| `ToolNames.TrailingUnderscoreCollides` | packages/ai/src/tool-name.ts:107-112 | a head with one more trailing underscore composes the name of another pair, and is refused |
| `ToolNames.NoViolationIffValid` | packages/ai/src/tool-name.ts:161-176 | nothing is reported of a name if and only if it is valid |
| `ToolNames.OffendingIsExact` | packages/ai/src/tool-name.ts:166-174 | the report of bad characters is never empty, names each offending code point once, and exactly those not allowed |
| `ToolNames.CodePointsJoin` | packages/ai/src/tool-name.ts:167-172 | iterating by code point tears nothing apart and loses nothing |
| `ToolNames.PairsStayTogether` | packages/ai/src/tool-name.ts:167-172 | iterating keeps surrogate pairs together and takes every other code unit by itself |
| `ToolNames.OffendingAppearInOrder` | packages/ai/src/tool-name.ts:166-174 | bad characters are reported in the order in which they first appear |
| `ToolNames.WhichViolation` | packages/ai/src/tool-name.ts:161-176 | an empty name, one over 64 code units, or else one with a character not allowed |

## Left out

- TypeScript types, logging, message texts, tracing and event payloads beyond those named: no effect on the modelled state.
- The pipeline executor, suspension store, debounce, throttle, circuit breaker and cache implementations, and the event bus: not part of this model; where a route or builder touches them, an opaque value or step stands for them.
- SplitBalance.ResolveSuspends: the walk into nested pipelines (choice branches, multicast paths, dispatch targets), re-entrant hosts, and the continuation recorded with each site: nested pipelines are not part of this model.
- Validation of individual options (`resolve…Options`, blank tags aside): each refuses its own call before any state changes.
- `unwindFailedBuild`: contexts whose build failed are not followed; one whose `initPlugins` failed goes on in the model as if it had been called directly.
- ContextObject.CraftContext.StartContext: the number of routes and the answer of the suspension check are fixed for the life of a context; routes that `build()` registers only after an early `start()` are not modelled as missing from that start.
- The error a failed drain leaves `stop()` to reject with, after the teardown and `context:stopped`: not modelled; the shutdown goes on in the same way.
- Event handlers that call `stop()` from inside its own synchronous prefix, and handlers that throw: the prefix is one step.
- The outcome labels of the boot summary (`awaitRoutesStarted`): reporting only; the readiness gate is a step that eventually happens.
- RouteDrain.Route.Drain: work that arrives from outside while the route drains is not modelled, since intake is closed first; nor is a flush callback that throws, which breaks the callbacks' contract.
- ConfigMerge.MergeRecords: the order of keys, accessor properties and non-enumerable keys are not modelled; own symbol keys make a record unmergeable, as in the code.
- ExchangeIdentity.Engine.NewExchange: freezing and copying of array-valued headers and of the principal is not modelled; values are immutable here.
- ExchangeIdentity.Engine.Clone: `structuredClone` is the identity on body values, so that a clone's body is a separate object is not captured.
- ErrorRegistry.Global.RegisterErrorCodes: the texts of the errors and the insertion order of codes are not modelled.
- ModuleDiscovery.CollectModules: paths are in the `/`-separated form that `byPath` compares; a root that is itself `/`, and files that vanish during the walk, are not modelled.
- ToolNames.OffendingIsExact: the wording around the offending characters is not modelled.
- CLI commands, environment loading, scaffolding, site scripts other than the heading scanner, React components, lint plugins and test helpers: they would add only easy members.
