# Chromite release tooling: a verified model

This project models five stateful algorithms of the Chromium OS build tooling and proves what they
keep, what they compute, and exactly where their documentation promises more than they do. Check it
with `dafny verify dfyconfig.toml`.

**Deploying packages** (`DepExpr`, `PackageDb`, `InstallPlan`, `InstallRuns`, `InstallScanner`,
`InstallTheorems`, `InstallSort`, `Deploy`). Runtime dependencies are nested and/or expressions over
(CP, slot) pairs, a CP being a package name with its category. They are resolved against what is
installed and what is available, entered into a database with forward and reverse edges, and traced
by a work queue in which a dependency moves from unseen through optional to mandatory. A depth-first
search then orders the packages. The sets of the program hand out their elements in any order, while
its dictionaries keep the order of insertion. So a run of the queue is given by the dependencies it
dequeues, everything else is determined, and the theorems hold for all runs. Three results differ
from what the program's comments suggest:
- The planned installs are indexed by CP, so a second slot overwrites the first, and a dependency on
  a CP that was recorded is dropped. The outcome is independent of the order of the sets exactly when
  each CP has one binary slot (`OrderIndependentIffSingleSlot`); otherwise two listed dependencies on
  different slots already give two outcomes. The slots of one CP themselves are visited in the order
  of the listing, so a bare CP always gets the slot listed last (`LastSlotWins`).
- The docstring of `_SortInstalls` promises a `ValueError` on a cycle. That branch is never taken:
  the sort always yields a permutation, and the list is a valid order exactly when the plan has no
  cycle (`SortInstalls`, `OrderedIffAcyclic`).
- A `||` group with no alternative installed or available silently resolves to nothing. In strings of
  plain packages and choices between them this is the only way to lose the requirement, and it does
  not lose it when the string requires an alternative anyway (`PlainStringSoundIff`).

**Run attributes** (`AttributeProtocol`, `AttributeTheorems`, `AttributeBoundary`, `RunAttributes`).
One attribute is a queue and a lock shared by any number of processes that set, get or test it. The
protocol is a transition system whose steps are the single queue and lock operations; theorems
quantify over all schedules. With several readers, the comments at cbuildbot/cbuildbot_run.py:457-459
are not true: a value taken without the lock can be put back after a newer one was lost, a get can
fail and a has can say no although a value was set. Three lemmas give the exact sets of callers for
which this cannot happen (`LatestValueIff`, `HonestFailureIff`, `TruthfulHasIff`).

**Applying patches** (`PatchPlan`, `PatchApply`). A change is resolved into a transaction with all it
needs, tolerating cycles, and transactions are applied one by one with rollback and a memory of
changes known to be bad. `PatchPlan` proves that a plan is the reachable set of its change, in an
order that only cycles disturb. `PatchApply` gives a whole run a functional meaning (`LandAll`): each
transaction takes effect entirely or only adds to the known bad changes, and the repositories end up
as if exactly the applied changes had been replayed once each in order (`Apply`, `EveryRunLands`).
The three lists that a run returns partition the requests exactly when everything planned is in the
manifest (`PartitionIff`).

**Version numbers** (`Versions`, `ManifestVersions`). Versions are parsed with the program's regular
expressions, including backtracking and the unescaped dots. Round trips, the order on versions, the
choice of the latest spec and the retrying search for an unused candidate number are proved for
numbers of any size. The search is followed attempt by attempt, each continuing from the version that
the one before left behind (`CreateNewCandidate`, `HistoryIsFreshIff`).

**Slave builds** (`SlaveStatus`, `SlaveWait`). Each poll filters out builds completed earlier; the
union over all polls is proved to lose nothing. The final test compares only numbers;
`CountingIsWrongIff` says when that is wrong, and `WaitIsRightIff` for which schedules every answer
that a wait gets is right.

`Graphs` holds the shared facts about walks and cycles, `Wrappers` the option and result types.

## Model

| member | source | states |
|---|---|---|
| DepExpr.ProcessSubDeps | cli/deploy.py:265-304 | The loop with its running default computes what is defined choice by choice: a conjunction returns the union of its items, a `\|\|` operand the union of its fully installed alternatives or else its first non-empty available one; the first error wins |
| DepExpr.ProcessSubExp | cli/deploy.py:273-287 | One item is a nested list, a stripped atom or one of three errors: an atom where a `\|\|` operand must stand, a conditional, an ignored atom inside a choice |
| DepExpr.AtomsResolveTo | cli/deploy.py:200-242 | A list of atoms resolves to exactly the pairs of its plain atoms and of the versioned blockers whose CP is installed |
| DepExpr.ErrsIff | cli/deploy.py:265-304 | An expression fails to resolve exactly when, at any depth, a `\|\|` mark is not followed by a list, a conditional occurs, or an alternative is a blocker that is ignored |
| DepExpr.ResolutionIsSound | cli/deploy.py:245-304 | Any package set containing all returned pairs satisfies the whole nested expression, provided every `\|\|` operand resolved to something |
| DepExpr.ItemIsSound | cli/deploy.py:273-287 | The same for a single item of an expression |
| DepExpr.InstalledChoicePreferred | cli/deploy.py:289-304 | If some non-empty alternative is fully installed, it is kept and nothing that is not installed is asked for |
| DepExpr.DefaultIsAChoice | cli/deploy.py:290-295 | The default is the first alternative that is non-empty and fully available |
| DepExpr.PickedChoice | cli/deploy.py:289-304 | A non-empty result of a choice contains a whole non-empty alternative |
| DepExpr.NoDefaultIff | cli/deploy.py:290-295 | There is no default exactly when no non-empty alternative is fully available |
| DepExpr.PlainChoiceFoundIff | cli/deploy.py:265-304 | A `\|\|` operand that lists plain packages resolves to something exactly when one of them is installed or available |
| DepExpr.PlainChoiceSoundIff | cli/deploy.py:265-304 | Such an operand, taken alone, keeps its requirement exactly under the same condition |
| DepExpr.PlainStringSoundIff | cli/deploy.py:245-307 | A whole dependency string of plain packages and `\|\|` groups of plain packages keeps its requirement, on every system that has all returned pairs, exactly when each group has an alternative that is installed or available, or that the string requires anyway |
| DepExpr.LostRequirement | cli/deploy.py:265-307 | The string `\|\| ( x y )` resolves to nothing when neither package is installed or available, and so loses its requirement |
| DepExpr.ChosenIsPresent | cli/deploy.py:289-304 | A choice between plain packages only asks for alternatives that are installed or available |
| PackageDb.BuildDB | cli/deploy.py:313-380 | Every listed CPV gets one record under its (CP, slot), duplicates are rejected exactly, forward dependencies are the resolved ones, reverse edges are the exact inverse of forward edges; an error names a dependency that does not resolve |
| PackageDb.InDBIff | cli/deploy.py:177-180 | A pair is in a database exactly when it names one of its packages; a missing or empty slot names all slots |
| PackageDb.PresentIff | cli/deploy.py:345-356 | What counts as installed or available for a choice of a binary package are the packages of the target and the binary packages |
| PackageDb.ForwardDepsKeptIff | cli/deploy.py:345-356 | The forward dependencies of a binary package keep what its plain string requires exactly when each choice can be made between packages of the target and binary ones, or is required anyway |
| PackageDb.ListPackages | cli/deploy.py:333-343 | The plain records, refused exactly when two CPVs share a CP and slot |
| PackageDb.ListedAreFiled | cli/deploy.py:333-343 | Every record sits under the CP of its own CPV |
| PackageDb.AddForwardDeps | cli/deploy.py:345-356 | Only the dependency sets change, to the resolution against target and binary packages |
| PackageDb.AddReverseDeps | cli/deploy.py:362-378 | A package is among the reverse dependencies of another exactly when one of its dependencies names that one |
| PackageDb.AddReverseDepsOf | cli/deploy.py:367-378 | One package is noted at exactly the packages it depends on, and nothing else changes |
| PackageDb.AddReverseDep | cli/deploy.py:368-378 | One dependency notes it in the slot it names, or in all slots |
| InstallPlan.NeedsInstall | cli/deploy.py:516-561 | A package needs installing exactly when installed packages are not checked, or it is not up to date and is either required or present in that slot; what is not an update was required and absent |
| InstallScanner.InstallPackageScanner.constructor | cli/deploy.py:416-420 | An empty queue with nothing seen |
| InstallScanner.InstallPackageScanner.EnqDep | cli/deploy.py:422-431 | A dependency is queued exactly when it is new or promoted from optional to mandatory; listed is within queue is within seen, and the queue never outgrows the promotions |
| InstallScanner.InstallPackageScanner.DeqDep | cli/deploy.py:433-447 | Listed dependencies come first, exactly one element leaves the queue |
| InstallScanner.InstallPackageScanner.ProcessDeps | cli/deploy.py:563-583 | However the set hands out its elements, queue and flags end up as if all had been enqueued at once |
| InstallScanner.InstallPackageScanner.ProcessDepsOf | cli/deploy.py:625-631 | Forward dependencies enter as mandatory, target reverse dependencies as optional |
| InstallScanner.InstallPackageScanner.ComputeInstalls | cli/deploy.py:585-636 | The result is that of one complete run, given by the dependencies it dequeued, one in each iteration; it is a solution: justified step by step, with the right CPV, slot, update and listed flags, and with every pulled dependency settled; there are at most twice as many iterations as distinct dependencies, also on cyclic graphs |
| InstallScanner.InstallPackageScanner.ProcessDep | cli/deploy.py:600-631 | The slots of a dequeued dependency are visited in listing order, a later one overwriting an earlier one |
| InstallScanner.InstallPackageScanner.ProcessSlot | cli/deploy.py:611-631 | A package that needs installing is recorded and pulls in its dependencies, any other changes nothing |
| InstallRuns.EnqueuedGrows | cli/deploy.py:422-431 | Each enqueueing raises the bound on how often dependencies can be enqueued |
| InstallRuns.SlotsOfAppend | cli/deploy.py:335-343 | Slots are visited in the order in which they are listed: of a listing in two parts those of the first part come first |
| InstallRuns.SlotsKeepOrder | cli/deploy.py:335-343 | Of two listed packages of a CP the one listed first is visited first |
| InstallRuns.LastListedIsLast | cli/deploy.py:611-623 | The package of a CP that is listed last is visited last |
| InstallRuns.SeenBounded | cli/deploy.py:585-600 | Only dependencies from the listed ones and the two databases are ever seen, which bounds the loop |
| InstallRuns.ProgressEnds | cli/deploy.py:585-636 | When the queue is empty the loop invariant is a solution |
| InstallRuns.EnqSlack | cli/deploy.py:422-431 | Enqueueing any set of dependencies never lets the queue outgrow the promotions |
| InstallRuns.PopKeeps | cli/deploy.py:600-631 | One iteration keeps the loop invariant and uses up slack |
| InstallRuns.EveryRunKeepsProgress | cli/deploy.py:599-636 | The loop invariant holds in every run, whatever is dequeued |
| InstallRuns.RunIsSolution | cli/deploy.py:585-636 | Every complete run ends in a solution, in at most two iterations for each dependency seen |
| InstallRuns.RunIsBounded | cli/deploy.py:585-636 | No run, complete or not, is longer than twice the number of dependencies there are |
| InstallTheorems.DerivationIsLeast | cli/deploy.py:599-636 | Whatever a run records lies in every set closed under the rules |
| InstallTheorems.ReachedFromListed | cli/deploy.py:563-636 | Every recorded package is reached from a listed one along dependencies of recorded packages |
| InstallTheorems.InstallsAreNeeded | cli/deploy.py:516-561 | With a non-empty target nothing up to date is installed, `update` means present in that slot, and a new package was pulled as mandatory, so reverse dependencies alone never add one |
| InstallTheorems.UntracedIsListed | cli/deploy.py:625-631 | When no dependencies are traced only what was listed is installed |
| InstallTheorems.ForwardOnly | cli/deploy.py:625-631 | When reverse dependencies are not traced whatever else is installed is named by a dependency of a recorded binary package |
| InstallTheorems.DependenciesAreMet | cli/deploy.py:585-636 | Every listed, forward or reverse dependency of an install has its CP installed, or every binary package it names is up to date (or, for reverse ones, absent on the target) |
| InstallTheorems.SingleSlotIsClosed | cli/deploy.py:599-636 | With one slot per CP the recorded packages are closed under the rules |
| InstallTheorems.SingleSlotLeastFixpoint | cli/deploy.py:599-636 | They are then the least fixpoint |
| InstallTheorems.SingleSlotSolutionsAgree | cli/deploy.py:433-447 | Any two solutions then give the same map of installs, with all its flags |
| InstallTheorems.SingleSlotRunsAgree | cli/deploy.py:433-447 | and so do any two runs, in whatever order the sets hand out their elements |
| InstallTheorems.LastSlotWins | cli/deploy.py:611-623 | A run that lists just a bare CP records the package of that CP at the last position of the listing, in every order of dequeueing |
| InstallTheorems.FirstPopWins | cli/deploy.py:600-604 | Of two listed dependencies on different slots of one CP the one dequeued first is recorded and the other dropped |
| InstallTheorems.TwoSlotsTwoAnswers | cli/deploy.py:433-447 | Any CP with two named slots has a request with two runs that end in different installs |
| InstallTheorems.OrderIndependentIffSingleSlot | cli/deploy.py:585-636 | For all targets and requests, all runs agree on the installs exactly when each CP has one binary slot, whatever the order of the listing (slots have names, as the package manager demands) |
| InstallSort.Sorter.SortFrom | cli/deploy.py:657-670 | The search emits a node after everything not on the current path; the cycle test is never true |
| InstallSort.Sorter.VisitDeps | cli/deploy.py:664-667 | All dependencies of the node are visited, the path is restored |
| InstallSort.Sorter.Emit | cli/deploy.py:669-670 | Moving the last node of the path to the list keeps the search invariant |
| InstallSort.SortInstalls | cli/deploy.py:638-676 | Always a permutation of the planned CPVs, never a cycle error; a dependency placed after its dependent leads back to it |
| InstallSort.AllEmitted | cli/deploy.py:672-676 | When nothing is left to visit, the emitted list is such an order |
| InstallSort.AcyclicPlansAreOrdered | cli/deploy.py:1219 | On acyclic plans dependencies come first, and the reversed list holds the same packages in a valid removal order |
| InstallSort.OrderedIffAcyclic | cli/deploy.py:638-676 | The list is a valid installation order exactly when the plan is acyclic |
| InstallSort.OrderedPlansHaveNoCycle | cli/deploy.py:638-676 | No node of a plan with a valid order lies on a cycle |
| InstallSort.WalksGoDown | cli/deploy.py:638-676 | In a valid order every walk along dependencies goes towards the front |
| Deploy.Run | cli/deploy.py:694-763 | The report is the tally of a run, and so of a solution, for exactly the requested packages over databases built from both listings, with forward dependencies of target and binary packages and reverse ones of the target exactly if they are to be traced; it is sorted as above; every error is explained: a flag combination, a listing that cannot be built, or the first request that is not acceptable |
| Deploy.AcceptableIff | cli/deploy.py:678-692 | A request is accepted exactly when its CP has a binary package, or when it is for all installed packages and the target was read |
| Deploy.ListedWasRequested | cli/deploy.py:678-692 | An install counts as listed exactly when some request names it, `@installed` naming what is on the target and among the binary packages |
| Deploy.InstalledOnlyUpdates | cli/deploy.py:685-692 | Asking for all installed packages lists no package that is not on the target |
| Deploy.RequestsAreMet | cli/deploy.py:727-739 | The CP of each requested package is installed or there is nothing to do for it |
| Deploy.DependentsAreMet | cli/deploy.py:625-631 | With reverse dependencies traced, a target package whose raw dependencies resolve to something that names an install on the target has its CP installed or nothing to do |
| Deploy.LastListedSlotIsInstalled | cli/deploy.py:611-623 | A bare CP requested without a look at the target is installed from the last line of the listing with that CP |
| Deploy.EnqueueRequests | cli/deploy.py:727-736 | All requests are enqueued as listed and mandatory, or the first unacceptable one is refused |
| Deploy.EnqueueListed | cli/deploy.py:678-692 | All given dependencies end up listed, mandatory and queued |
| Deploy.Tally | cli/deploy.py:741-747 | The listed CPVs and the number of updates of a plan |
| Deploy.SolutionsAreSortable | cli/deploy.py:653-655 | Every planned install has a binary record, so sorting never meets a missing key |
| Deploy.UpToDateTargetNeedsNothing | cli/deploy.py:516-561 | If all binary packages are on a non-empty target in the same version and build, nothing is planned |
| AttributeProtocol.FireKeepsInv | cbuildbot/cbuildbot_run.py:360-483 | Every step of every process keeps the four invariants together |
| AttributeProtocol.EveryRunKeepsInv | cbuildbot/cbuildbot_run.py:360-483 | In every reachable state the lock has one owner, the queue at most one value, every value was set before, and none is lost |
| AttributeProtocol.FireKeepsQueue | cbuildbot/cbuildbot_run.py:384-392 | The queue never holds two values, none while someone is about to put |
| AttributeProtocol.FireKeepsValues | cbuildbot/cbuildbot_run.py:448-483 | Whatever is queued, held or returned was put by a setter, a returned value before the getter took the lock |
| AttributeProtocol.FireKeepsSetValues | cbuildbot/cbuildbot_run.py:384-483 | After the first put the queue is non-empty, a get holds a value, or a set holds the lock before its put |
| AttributeProtocol.EveryRunKeepsCalls | cbuildbot/cbuildbot_run.py:360-483 | No process disappears or turns into another call |
| AttributeTheorems.FireConserves | cbuildbot/cbuildbot_run.py:384-483 | With one setter each step conserves the number of values queued or held |
| AttributeTheorems.OneSetterConserves | cbuildbot/cbuildbot_run.py:384-483 | With one setter, once it has put its value exactly one copy exists, queued or held |
| AttributeTheorems.FireKeepsLatest | cbuildbot/cbuildbot_run.py:429-483 | With one reader in flight each step keeps the latest value where that reader finds it |
| AttributeTheorems.SingleReaderIsLinearizable | cbuildbot/cbuildbot_run.py:429-483 | If no two gets overlap, a get returns the value of the last put before its locked section, leaves it queued, and fails only if there was none |
| AttributeBoundary.StaleGet | cbuildbot/cbuildbot_run.py:448-483 | Two readers and two setters have a run in which a get returns the older value |
| AttributeBoundary.SecondValueIsLost | cbuildbot/cbuildbot_run.py:448-483 | Continuing it, both gets return the older value and the newer one is gone |
| AttributeBoundary.EveryRunLogs | cbuildbot/cbuildbot_run.py:360-392 | Every value ever put comes from a set call of the run |
| AttributeBoundary.LatestValueIff | cbuildbot/cbuildbot_run.py:457-459 | All gets in all runs return the latest value exactly when there are not both two readers and two setters with different values |
| AttributeBoundary.SpuriousFailure | cbuildbot/cbuildbot_run.py:451-483 | While one get holds the value without the lock, another one fails |
| AttributeBoundary.HonestFailureIff | cbuildbot/cbuildbot_run.py:451-483 | Gets fail only without a value in all runs exactly when no second reader is willing to give up while a setter exists |
| AttributeBoundary.SpuriousHas | cbuildbot/cbuildbot_run.py:394-406 | While a get holds the value a has reports it missing |
| AttributeBoundary.TruthfulHasIff | cbuildbot/cbuildbot_run.py:394-406 | Has is right in all runs exactly when no reader runs beside it and a setter |
| AttributeBoundary.NoReaderNoLie | cbuildbot/cbuildbot_run.py:394-406 | Without readers every has reports exactly whether a value was put |
| AttributeBoundary.SetterRuns | cbuildbot/cbuildbot_run.py:384-392 | A set that runs alone on an empty queue leaves its value there |
| AttributeBoundary.GetterReturns | cbuildbot/cbuildbot_run.py:462-476 | A get that holds a value and runs alone re-queues and returns it |
| RunAttributes.JoinIsInjective | cbuildbot/cbuildbot_run.py:267-286 | Joined names of equally many components without `\|` tell all components apart |
| RunAttributes.SingleBarsCollide | cbuildbot/cbuildbot_run.py:267-286 | Avoiding the separator itself in components is not enough |
| RunAttributes.FirstBar | cbuildbot/cbuildbot_run.py:267-286 | A component without `\|` ends at the first separator |
| RunAttributes.FirstSeparator | cbuildbot/cbuildbot_run.py:267-286 | A board without two bars in a row and without one at its end is followed by the first separator, whatever the target is |
| RunAttributes.DecodableIff | cbuildbot/cbuildbot_run.py:267-286 | The combined names of a board, with any targets, are told apart from those of all such boards exactly when the board is one of them |
| RunAttributes.BadBoardCollides | cbuildbot/cbuildbot_run.py:267-286 | Any other board shares each of its combined names with such a board and another target |
| RunAttributes.UniqueNameIsJoin | cbuildbot/cbuildbot_run.py:285-286 | Prefixing the combined name with the attribute is joining all three |
| RunAttributes.NamesDiffer | cbuildbot/cbuildbot_run.py:267-286 | Different attributes, boards or targets use different queues if the boards are decodable, whatever the targets are |
| RunAttributes.NewNameIsFresh | cbuildbot/cbuildbot_run.py:244-255 | A new board and target never reuses an existing queue, whatever its name contains |
| RunAttributes.Attributes.constructor | cbuildbot/cbuildbot_run.py:217-231 | One empty queue per plain attribute |
| RunAttributes.Attributes.RegisterBoardAttrs | cbuildbot/cbuildbot_run.py:233-257 | Registering adds empty queues and keeps existing values; repeating it changes nothing |
| RunAttributes.Attributes.SetParallel | cbuildbot/cbuildbot_run.py:360-392 | Without interference the queue holds just the new value, which is then the one set last; errors change nothing |
| RunAttributes.Attributes.HasParallel | cbuildbot/cbuildbot_run.py:394-406 | True exactly when some earlier set of this attribute succeeded: once set, an attribute stays set through gets and registrations |
| RunAttributes.Attributes.GetParallel | cbuildbot/cbuildbot_run.py:429-483 | Without interference the value set last is returned and kept; which error when there is none |
| RunAttributes.Attributes.SetBoardParallel | cbuildbot/cbuildbot_run.py:288-298 | Setting one board attribute leaves the attributes of all other decodable boards and of all other targets alone; which error, and that errors change nothing |
| PatchPlan.Wrap | cbuildbot/patch_series.py:73-97 | Any error raised while working on a change is blamed on it, keeping its root cause and whether it was inflight; an error that is its own already is kept as it is |
| PatchPlan.LookupUncommittedChanges | cbuildbot/patch_series.py:378-426 | The open, accepted dependencies in order, or the first obstacle |
| PatchPlan.NoObstacleIff | cbuildbot/patch_series.py:378-426 | The lookup goes through exactly when no uncommitted dependency of this builder fails to be looked up or is known, unmerged and not allowed |
| PatchPlan.FirstObstacleAt | cbuildbot/patch_series.py:378-426 | Otherwise it raises the error of the first one, naming it and telling submission from eligibility |
| PatchPlan.KeepAppend | cbuildbot/patch_series.py:378-426 | The dependencies kept are in the order in which they were given |
| PatchPlan.KeepOne | cbuildbot/patch_series.py:378-426 | A dependency is kept exactly when it is uncommitted, of this builder, known, unmerged and accepted |
| PatchPlan.PlanBuilder.AddChangeToPlanWithDeps | cbuildbot/patch_series.py:483-528 | Keeps the planning invariant over the stack of changes in progress; a failure is blamed on the change and explained by a long chain or an unresolvable reachable change |
| PatchPlan.PlanBuilder.AddDeps | cbuildbot/patch_series.py:516-523 | After its dependencies were added, everything a change needs is in the plan |
| PatchPlan.CreateTransaction | cbuildbot/patch_series.py:428-453 | A plan is duplicate-free, holds its change and only reachable ones, is closed under needs, and orders needs first except for changes on cycles; a committed change needs nothing |
| PatchPlan.PlanIsReachableSet | cbuildbot/patch_series.py:428-528 | A plan holds exactly the changes reachable from the requested one |
| PatchPlan.ReachedIsClosed | cbuildbot/patch_series.py:428-528 | Changes closed under needs hold everything that any of them reaches |
| PatchPlan.PlanIsAllowed | cbuildbot/patch_series.py:378-426 | Every other change of a plan is uncommitted, open, accepted and, when limited, among the allowed ones |
| PatchPlan.StuckHasNoPlan | cbuildbot/patch_series.py:378-453 | A failure for an unresolvable reachable change is unavoidable |
| PatchPlan.AcyclicPlanIsTopological | cbuildbot/patch_series.py:483-528 | Without cycles every change follows all it needs |
| PatchPlan.AcyclicLimitMeansLongChain | cbuildbot/patch_series.py:506-507 | Without cycles the depth limit means a chain of 151 distinct uncommitted changes, each needing the next |
| PatchPlan.AppendOnCycle | cbuildbot/patch_series.py:525-528 | A change met again while in progress lies on a cycle and may be appended early |
| PatchPlan.AppendAfterNeeds | cbuildbot/patch_series.py:525-528 | Otherwise it is appended after all it needs |
| PatchApply.PatchSeries.ApplyChange | lib/patch.py:1242-1262 | Without a failure the change was applied in each of its distinct checkouts, none failing; with one it was applied in those before the failing one, failed there with exactly the reported kind, and was not tried in later ones; no other repository is touched |
| PatchApply.ApplyToMeans | lib/patch.py:1252-1262 | The same about the function that specifies it, in terms of single patches |
| PatchApply.ReplayPatches | cbuildbot/patch_series.py:781-792 | In a replay every change is applied in each of its checkouts, on top of the changes before it |
| PatchApply.PatchSeries.ApplyChanges | cbuildbot/patch_series.py:763-795 | Succeeds exactly when no change is known to be bad and the uncommitted ones replay; exactly the failing change, if it fails against the tip of the tree, becomes known as bad; the error is inflight exactly when the replay stopped without such a culprit |
| PatchApply.PatchSeries.ApplyOpen | cbuildbot/patch_series.py:781-792 | The uncommitted changes are applied in order; it fails exactly when they do not replay, with the culprit remembered if it fails against the tip of the tree |
| PatchApply.PatchSeries.KnownFailure | cbuildbot/patch_series.py:775-779 | Fails exactly when some change is known to be bad, and then against the tip of the tree |
| PatchApply.PatchSeries.ApplyNext | cbuildbot/patch_series.py:782-792 | A failure against the tip of the tree is remembered for exactly this change, an inflight one is not |
| PatchApply.PatchSeries.RunTransaction | cbuildbot/patch_series.py:722-761 | A failed transaction leaves repositories and committed changes as they were, and is blamed on the inducing change with the right kind |
| PatchApply.PatchSeries.RecordHeads | cbuildbot/patch_series.py:740-747 | The heads of exactly the touched repositories, or an error for a change that is not in the manifest |
| PatchApply.PatchSeries.Rewind | cbuildbot/patch_series.py:751-761 | Resetting the touched repositories restores all of them |
| PatchApply.PatchSeries.FetchChanges | cbuildbot/patch_series.py:563-609 | The visible changes in order and one error for each that is not in the manifest |
| PatchApply.FetchedAppend | cbuildbot/patch_series.py:563-609 | The fetched changes are in the order of the requests |
| PatchApply.WorldFor | cbuildbot/patch_series.py:652-665 | What planning sees: the services and filters of the series, the changes committed so far, and in frozen mode just the fetched changes |
| PatchApply.PatchSeries.CreateTransactions | cbuildbot/patch_series.py:455-481 | Each fetched change has a plan, in the given order, or is blamed with an error that explains why it has none: an unresolvable change it reaches, or a chain that is too long |
| PatchApply.PatchSeries.CommitTransaction | cbuildbot/patch_series.py:691-705 | One transaction has exactly the effect of `Land`: whole, or only on the known bad changes |
| PatchApply.PatchSeries.RunTransactions | cbuildbot/patch_series.py:691-705 | The transactions have exactly the effect of `LandAll`; every failure is reported with its change and kind, nobody else is blamed, and each inducing change is applied or blamed once |
| PatchApply.PatchSeries.Plan | cbuildbot/patch_series.py:652-689 | The transactions for all fetched changes that can be planned, in their order or largest first; every other one is blamed with the reason, every change outside the manifest is blamed for that; in frozen mode limited to the fetched changes |
| PatchApply.PatchSeries.Perform | cbuildbot/patch_series.py:691-720 | Given the resolved transactions and the planning errors: exactly the effect of `LandAll`, the distinct applied changes, and the complete report |
| PatchApply.PatchSeries.Apply | cbuildbot/patch_series.py:612-720 | The final repositories are the initial ones with exactly the applied changes replayed once each in order; the committed set grows by exactly these; they are closed and ordered under needs; distinct requests induce distinct transactions; every request has a transaction unless it cannot be planned or is outside the manifest, and then it is reported with that reason; every failed transaction is reported in the list of its kind unless its change landed after all; for distinct, visible, uncommitted requests the three lists are a partition exactly when everything planned is in the manifest, which frozen mode guarantees |
| PatchApply.EveryRunLands | cbuildbot/patch_series.py:691-714 | However many transactions run, sharing changes or failing, the state is the replay of the distinct applied changes, closed and ordered |
| PatchApply.TransactionLands | cbuildbot/patch_series.py:691-714 | One more transaction keeps this |
| PatchApply.LandPlan | cbuildbot/patch_series.py:703-714 | A plan that shares changes with earlier ones adds just its new changes, still closed and ordered |
| PatchApply.OrderedAppend | cbuildbot/patch_series.py:703-714 | Dropping what landed before from an ordered plan keeps needs first |
| PatchApply.UniqAppend | cbuildbot/patch_series.py:706-714 | Making the applied list unique drops exactly the changes that landed before |
| PatchApply.ReplayAppend | cbuildbot/patch_series.py:781-792 | Replaying in two parts is replaying the whole |
| PatchApply.FailureStops | cbuildbot/patch_series.py:781-792 | After the first failure the rest cannot succeed and blames nobody else |
| PatchApply.CulpritFailed | cbuildbot/patch_series.py:786-791 | A change newly known to be bad is the first that did not apply and failed against the tip of the tree |
| PatchApply.FailedIsCulprit | cbuildbot/patch_series.py:786-791 | and such a change is always noted |
| PatchApply.FailingNeverLands | cbuildbot/patch_series.py:691-705 | A change that fails in some checkout whatever is there, or is known to be bad, is applied by no run, and stays known to be bad |
| PatchApply.CleanRunLandsAll | cbuildbot/patch_series.py:691-705 | When no patch fails, nothing is known to be bad and everything is in the manifest, all transactions are applied |
| PatchApply.SortTransactions | cbuildbot/patch_series.py:680-689 | A permutation, longer plans first, ties in the given order |
| PatchApply.LargestFirst | cbuildbot/patch_series.py:680-689 | Sorted transactions never grow, and equally large ones are in the order of the requests |
| PatchApply.FrozenInManifest | cbuildbot/patch_series.py:652-665 | In frozen mode plans hold only fetched changes, so everything planned is in the manifest |
| PatchApply.PartitionIff | cbuildbot/patch_series.py:691-720 | Each request is applied, failed against the tip of the tree, or failed inflight, exactly one of these, exactly when everything planned is in the manifest |
| PatchApply.AllInManifestIff | cbuildbot/patch_series.py:428-453 | Unless a chain of needs is too long, everything planned is in the manifest exactly when everything is that a fetched, uncommitted, resolvable change reaches |
| PatchApply.ReportPartitionIff | cbuildbot/patch_series.py:652-720 | so the lists are a partition exactly under that condition on the requests alone |
| PatchApply.ReportIsComplete | cbuildbot/patch_series.py:691-720 | The report of a run from its planning errors, its failures and its applied changes |
| PatchApply.NotApplied | cbuildbot/patch_series.py:740-741 | A change whose plan leaves the manifest is never applied, not even by another transaction |
| PatchApply.NotBlamed | cbuildbot/patch_series.py:740-741 | nor is it blamed, because its transaction fails outside the code that passes the blame on |
| PatchApply.UnfrozenCanFail | cbuildbot/patch_series.py:740-741 | A request that needs an open change outside the manifest has a plan, and every plan for it leaves the manifest, so outside frozen mode the partition fails |
| PatchApply.PlanErrorsKept | cbuildbot/patch_series.py:664-673 | Planning errors with their reasons survive unless another transaction applied the change |
| PatchApply.FetchedAccounts | cbuildbot/patch_series.py:563-609 | Every distinct request that a helper knows is fetched or blamed once for not being in the manifest |
| PatchApply.ReportsKept | cbuildbot/patch_series.py:716-720 | A failure survives in the list of its kind unless its change was applied |
| PatchApply.SplitIsPartition | cbuildbot/patch_series.py:716-720 | If every request is blamed once or applied, the three returned lists partition the requests |
| PatchApply.Classify | cbuildbot/patch_series.py:706-720 | Failures of changes that another transaction applied are dropped, the rest is split by kind |
| Versions.IntOfStrOf | cbuildbot/manifest_version.py:372-376 | Printed numbers of any size read back |
| Versions.IntOfDecimal | cbuildbot/manifest_version.py:372-376 | Numbers are read in base ten |
| Versions.VersionRoundTrip | cbuildbot/manifest_version.py:219-250 | Parsing a rendered version gives back its three components |
| Versions.CandidateRoundTrip | cbuildbot/lkgm_manager.py:35-77 | Parsing a rendered `-rcN` version gives back its components and candidate number |
| Versions.PlainIsFirstCandidate | cbuildbot/lkgm_manager.py:37-67 | A plain version name counts as candidate 1 |
| Versions.MatchIff | cbuildbot/manifest_version.py:219 | The matcher, which tries longer groups first and backtracks, finds a match whenever there is one |
| Versions.ParsesIff | cbuildbot/manifest_version.py:219-247 | A string parses as a version exactly when it contains three groups of digits with any single character but a newline between each two |
| Versions.DotsMatchAnything | cbuildbot/manifest_version.py:219 | An example without any dot, which the candidate pattern refuses |
| Versions.RenderedMatches | cbuildbot/manifest_version.py:219 | Both patterns find exactly the rendered components before anything but a digit |
| Versions.LessIsTotal | cbuildbot/manifest_version.py:378-398 | Comparing component lists is a strict total order |
| Versions.LessIsTransitive | cbuildbot/manifest_version.py:378-398 | and transitive |
| Versions.LessIsLexicographic | cbuildbot/manifest_version.py:378-398 | Lists are compared by the first number in which they differ, a proper prefix being smaller |
| Versions.ExampleNames | cbuildbot/lkgm_manager.py:35-77 | The text of real version and candidate names, and what they parse to |
| ManifestVersions.VersionInfo.constructor | cbuildbot/manifest_version.py:223-250 | The fields of a version |
| ManifestVersions.VersionInfo.IncrementVersion | cbuildbot/manifest_version.py:305-325 | Every valid increment is strictly larger, reads back, has the expected numbers and still matches the old build prefix; which increments are refused |
| ManifestVersions.VersionInfo.BumpNumbers | cbuildbot/manifest_version.py:314-323 | The numbers after an increment |
| ManifestVersions.BumpedIsLarger | cbuildbot/manifest_version.py:305-325 | Incremented numbers are larger and keep the build prefix |
| ManifestVersions.BuildPrefixIff | cbuildbot/manifest_version.py:402-410 | A name has the build prefix of a version exactly when it is of the same build and, unless the patch number is 0, of the same branch; without a branch increment always |
| ManifestVersions.NamesCompareAsNumbers | cbuildbot/manifest_version.py:378-380 | Comparing rendered names is comparing their numbers |
| ManifestVersions.LatestSpecFromList | cbuildbot/manifest_version.py:617-628 | The first of the greatest specs; an error exactly when a name does not parse |
| ManifestVersions.LatestSpecFromDir | cbuildbot/manifest_version.py:630-641 | The greatest spec with the build prefix, none exactly when there is none |
| ManifestVersions.IncrementIsLarger | cbuildbot/lkgm_manager.py:79-82 | The next candidate is larger and has a different name |
| ManifestVersions.NextIsNearest | cbuildbot/lkgm_manager.py:79-82 | Nothing lies between a candidate and the incremented one |
| ManifestVersions.NextIsFreshIff | cbuildbot/lkgm_manager.py:263-275 | The chosen candidate is ahead of the latest spec exactly when our own version was ahead already, or the latest spec has a canonical name and this is no dry run |
| ManifestVersions.LkgmManager.InitializeManifestVariables | cbuildbot/manifest_version.py:647-699 | The latest spec of the release line, or an unparsable name and no change |
| ManifestVersions.LkgmManager.GetNextVersion | cbuildbot/manifest_version.py:732-750 | The candidate is incremented exactly when its name is the latest spec and this is no dry run, and then differs from it |
| ManifestVersions.LkgmManager.ChooseCandidate | cbuildbot/lkgm_manager.py:263-275 | What one attempt continues from, what it leaves behind, and exactly when what it tries is fresh |
| ManifestVersions.LkgmManager.TryOnce | cbuildbot/lkgm_manager.py:250-282 | One attempt is a step of the history, or it ends the search with its reason |
| ManifestVersions.Extend | cbuildbot/lkgm_manager.py:248-282 | One more attempt extends the history, which goes on from the version left behind or ends with the exact reason |
| ManifestVersions.LkgmManager.CreateNewCandidate | cbuildbot/lkgm_manager.py:210-284 | The attempts form a history: each one starts from the version that the one before left behind, the first from the given one, and tries the version that follows the latest spec in its own refreshed listing; the published version is that of the last attempt, all earlier ones failed, and each other way to end has its exact reason |
| ManifestVersions.TriedIsFreshIff | cbuildbot/lkgm_manager.py:248-278 | What an attempt tries is ahead of every spec of its release line in the listing of that attempt exactly when there is none, its own version was ahead of the latest one already, or the latest one has a canonical name and this is no dry run |
| ManifestVersions.HistoryIsFreshIff | cbuildbot/lkgm_manager.py:248-278 | The same holds for every attempt of a history, whatever earlier attempts did to the version |
| ManifestVersions.HistoryAt | cbuildbot/lkgm_manager.py:248-278 | Every attempt of a history continues from what the one before left |
| ManifestVersions.StepKeepsLine | cbuildbot/lkgm_manager.py:263-275 | For a branch increment with a canonical latest name, what an attempt leaves keeps the build number, and the branch number unless the patch number was 0 |
| ManifestVersions.HistoryKeepsBuild | cbuildbot/lkgm_manager.py:248-278 | so a whole search never leaves the build it started from |
| ManifestVersions.VersionsNeverGoBack | cbuildbot/lkgm_manager.py:248-278 | No attempt leaves a smaller version than an earlier attempt left |
| ManifestVersions.FreshNameIsNew | cbuildbot/lkgm_manager.py:248-278 | A version that is ahead of all specs seen reuses none of their names |
| SlaveStatus.Status.SetStatusBuildsDict | cbuildbot/build_status.py:122-128 | Each build with a status is filed under exactly that status |
| SlaveStatus.Status.UpdateSlaveStatus | cbuildbot/build_status.py:130-157 | The completed set grows by exactly the builds finished in this tick; the exact condition of the missing-key error |
| SlaveStatus.ExpectedMeans | cbuildbot/build_status.py:178-191 | Who is expected, from config, metadata, schedule and flags |
| SlaveStatus.FinishedMeans | cbuildbot/build_status.py:227-257 | Who finishes in an update, from the statuses in both services |
| SlaveStatus.WhichComplete | lib/constants.py:111-115 | All CIDB statuses are final but those of builds that still have to run or to report |
| SlaveStatus.Status.Completed | cbuildbot/build_status.py:259-265 | For distinct expected builders, true exactly when as many strays completed as expected builds are open; without strays, exactly when every expected build has completed |
| SlaveStatus.Status.Poll | cbuildbot/build_status.py:130-157 | After any run of ticks the completed set is the union over the ticks of what had finished, and it never shrinks; the missing-key error is raised exactly at the first tick that is inconsistent with what had finished before it |
| SlaveStatus.FilteringLosesNothing | cbuildbot/build_status.py:89-120 | Leaving out builds completed before changes nothing about the union |
| SlaveStatus.OneMoreTick | cbuildbot/build_status.py:227-257 | One more tick extends the union by what finished in it |
| SlaveStatus.CompleteListingIsConsistent | cbuildbot/build_status.py:248-255 | If Buildbucket lists all scheduled builders the missing-key error cannot occur |
| SlaveStatus.CountingIsWrongIff | cbuildbot/build_status.py:259-265 | The numbers agree when as many strays completed as expected builds are open; they mislead exactly when strays completed and nothing, or just as much, is open |
| SlaveStatus.CompletedMeansAllFinished | cbuildbot/build_status.py:259-265 | While all that finished is still expected, the numbers agree after any ticks exactly when every expected build finished in one of them |
| SlaveStatus.TestIsRightIff | cbuildbot/build_status.py:130-157 | For given schedules and experimental flags the comparison is right after the last of any updates, whatever the statuses are, exactly when no builder that can finish in some update is missing from the last list of expected ones; for an actual wait, which stops at the first yes, this is sufficient |
| SlaveWait.WaitIsRightIff | cbuildbot/build_status.py:403-418 | For given schedules every answer that an actual wait gets is right, whatever the statuses are, exactly when no builder strays: none can finish and is not expected in a later update that the wait may last until, where a wait is over once nobody or only that builder is expected |
| SlaveWait.AlwaysRightIff | cbuildbot/build_status.py:403-418 | The same in terms of who is expected and who can finish in each update |
| SlaveWait.StrayMisleads | cbuildbot/build_status.py:259-265 | A builder that strays has a wait that ends too early or goes on although everybody has finished |
| SlaveWait.NobodyMisleads | cbuildbot/build_status.py:259-265 | Without one every answer of every wait is right |
| SlaveWait.SameFinished | cbuildbot/build_status.py:227-257 | What has finished by an update is the union of what finished in the updates so far |
| SlaveStatus.FlaggedLateMisleads | cbuildbot/build_status.py:178-191 | Two ticks after which an unfinished build counts as completed, because a finished one was flagged as experimental late |

## Left out

- ResolutionIsSound: goes one way; for arbitrarily nested groups it assumes that every `||` operand resolved to something. The exact condition is given for strings of plain packages and choices between plain packages (PlainStringSoundIff).
- RunAttributes.Attributes.GetParallel: waiting forever on an attribute that nobody sets is excluded here, because that call never returns; AttributeProtocol covers waiting.
- PatchApply.PatchSeries.Apply: when nothing resolves, all failures are returned in the first list, as the source does.
- ManifestVersions.LkgmManager.CreateNewCandidate: its history says what every attempt tries; whether that is fresh depends on the name of the latest spec, HistoryIsFreshIff gives the exact condition.
- Portage: reading listings, splitting CPVs and the text of atoms. CPVs carry their CP, dependencies enter as parsed expressions, and an atom that does not parse is not modelled. Looking up a package by pattern and asking the user for a choice: requests enter looked up.
- Device access, emerging and unmerging, DLC images, SELinux and prompts of the deploy command: input and output.
- Package records are values in a map that is reassigned, so aliasing of the records between database and plan is not captured; the source never relies on it. Slot names are not empty, as the package manager demands; only the failing half of OrderIndependentIffSingleSlot needs that. The listed packages of a report are a set instead of a list in the order of a dictionary.
- Run attributes: pickling, real time, crashes of processes, and a process taking its own lock twice. Releasing after a failed get is one step with the failure. SetParallelDefault, which tests and sets in two calls, and the thin board wrappers for get and has.
- Changes are identified by their id, so aliases in the patch cache are not modelled. Gerrit answers are fixed during one run, the committed cache does not grow during planning, and the optional changes filter is not modelled.
- A repository is what it has checked out. Its index, branches and uncommitted files, and the content of patches, are not modelled; applying a change is an arbitrary function that may fail and leave the tree changed.
- Exceptions other than patch exceptions, and the interpreter's own recursion limit.
- Decimal digits are the ASCII ones; the patterns of the source also match other Unicode digits.
- Version files, pushing, branches, manifest files and links; incrementing by the general build spec manager. Listings are arbitrary sequences of names.
- A wait may also end by a deadline or by a build that failed to start; this only makes it shorter. Missing and scheduled builds, retries, cancellation, metrics and experimental build queries of the status loop.
