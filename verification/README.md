# Verified models of the repository tooling

The scripts of this repository carry a handful of real algorithms and protocols: a package ordering
built on strongly connected components, a duration-balanced scheduler over an in-place heap, a
three-valued lookup over cyclic type declarations, a bounded worker pool, a process supervisor, and
several parsers. This project models them in Dafny and proves what they are for. Code that works on
mutable state is modelled by classes, arrays and loops; recursive code by functions; protocols by a
state and a relation between successive states, so that a theorem about runs covers every
interleaving.

## The modules

**Package order** (`Digraph`, `Sorting`, `SinkCycles`, `PackageOrder`, `PackageOrderLaws`,
`PackageRounds`). `Digraph` defines reachability by closed sets and shows that this is reachability
along paths. `SinkCycles` is the depth-first component search with its counters, index and low-link
maps and explicit stack as fields of a class. Each visit is proved against one description of the
search state: the stack is ordered by index, every stacked package is anchored to one still being
visited, and emitted components are maximal, closed under earlier ones, and never revisited. The
result lists *exactly* the cyclic components that nothing leaves. `PackageOrder` is the layered sort
around it; `PackageOrderLaws` proves the ordering theorems on the original graph. `PackageRounds`
says what a round is by positions in the group order, chains of dependencies and earlier rounds
alone, and what the whole list promises by its packages alone. The search is proved to pop only from
a nonempty stack and to read only indexed packages, and a blocked remainder is proved to hold a sink
cycle, so the three "cannot happen" errors of the source cannot happen.

**Duration-balanced partitions** (`Scheduling`, `GrahamBound`, `GreedyRuns`, `CoveragePartitions`,
`PartitionLaws`). The heap of bucket indices is an array that `SiftDown` repairs in place; buckets
are objects whose sum and file list grow. The method is proved to be *some* greedy run (each job
goes to a bucket that no other bucket is below, by weight and then by count), which
`PartitionLaws.PlacedInTurn` spells out over the recorded durations and 1 for a file without one.
About every greedy run the project proves Graham's bound `4/3 - 1/(3m)` against any assignment, that
ties never matter for the final bucket keys, that files are conserved, and exactly when no partition
is empty.

**Schema paths and type closures** (`SchemaPath`, `SchemaPathRules`, `SchemaPathLaws`,
`SchemaPathGuard`, `SchemaPathCost`, `SchemaPathLoss`, `SchemaPathDecides`, `SchemaReferences`,
`SchemaPathEnds`, `SchemaPathLoops`, `SchemaPathPumping`, `TypeClosure`). The lookup threads its
guard set through every branch, as the source does, with a recursion depth in place of the call
stack; greater depth is proved never to change an outcome. A separate definition says what
"derivably present" and "derivably absent" mean without any guard, and a second walk runs without
one. Definite verdicts are proved to have derivations, whatever the guard already held;
`SchemaPathRules` says for each kind of type what both come to, by the declared members, bases and
names. The guard is proved only ever to turn a definite answer into unknown, only where a
declaration is met twice with as many steps left, and never under a condition on the declarations
that can be checked beforehand, under which the walk decides exactly what can be derived.
`SchemaReferences` describes where references lead and how much they lengthen the path, for the
termination theorems. `TypeClosure` is the paste worklist: it reports a violation exactly when the
closure of the config type cannot be listed in one namespace, every violation is true of uses in the
closure, and nothing is passed over: each use it comes to is recorded or has its own violation, also
after earlier ones.

**Session migration** (`MigrationPool`, `PoolInvariant`, `PoolRuns`, `MigrationReport`,
`MigrationVisits`, `MigrationOutcomes`). The pool is a transition system over workers that claim,
wait, return or throw, followed by the serial retry; the report is the counters, the per-version
table and the failure groups; the visits are the callback that decides what is deferred, failed,
skipped or converted, and what that means for whole runs; and `MigrationOutcomes` says of every
finished run which inputs the report counts under which outcome and version.

**Development stages** (`DevWebShutdown`, `ReadinessGate`). Stage exits, interrupts, grace timers
and the escalating stop in any order; and the gate that opens when enough watchers have built once.

**Smaller pieces** (`Options`, `Decimal`, `ArtifactDigest`, `GitBatch`, `Candidates`, `Text`,
`MarkdownProse`, `MarkdownLines`, `JsDocProse`, `JsDocPages`, `PackageOwner`). Two length-prefixed
framings, a breadth-first search, comment subtraction over lines, the documentation-comment state
machine, and a memoised ancestor lookup.

`dafny verify dfyconfig.toml` checks everything.

## Where the code and its documentation differ

- scripts/coverage-partitions.ts:303 promises that every partition is non-empty.
  `PartitionLaws.NonEmptyIff` gives the exact condition: there are at least as many files as
  partitions m, and at least m - 1 of them have a weight that is not negative.
  The second half matters because persisted durations may be any finite number;
  `PartitionLaws.FewFilesLeaveEmpty` and `PartitionLaws.NegativeDurationsLeaveEmpty` are failing inputs.
- scripts/gen-config-catalog.ts:400 calls a repeated guard key a recursive type.
  `SchemaPathCost.DiamondIsUnknown` is a union of two references to the same plain interface, with no
  recursion, that is answered unknown although the member is derivably present. The answer stays
  harmless, since only a definite miss is reported. `SchemaPathLoss.RepeatedBranchIsUnknown` shows it for
  every alias of a union that names one declaration in two branches, on every path;
  `SchemaPathCost.LossNeedsRepeat` that such a loss always needs a repeated key, and
  `SchemaPathDecides.DecidesExactly` that nothing is lost when no union, intersection or heritage list
  reaches a declaration in two branches and every cycle of references consumes more steps than it adds.
- The same guard is meant to keep the walk from looping (scripts/gen-config-catalog.ts:395-402). It
  does so exactly as long as the paths stay bounded (`SchemaPathEnds.EndsIffBounded`), and a literal
  indexed access makes them longer: `SchemaPathLoops.IndexedAccessLoops` shows it for `type T = T['a']`
  and `SchemaPathLoops.RoundNeverEnds` for every round of references that comes back with a longer
  path. `SchemaPathEnds.WalkEnds` proves that the walk ends on every path when no cycle among the
  reachable declarations adds more steps than it consumes, so indexed accesses outside such cycles are
  harmless. That condition is not necessary: in `SchemaPathPumping.GainWithoutPump` a cycle adds a step,
  but what it adds leads nowhere. What an endless walk does need is proved in
  `SchemaPathPumping.EndlessNeedsPump`: it can go to a literal indexed access that leads, through any
  branches, from the one step it adds back to itself with more, never touching the path below. What
  remains between this and `SchemaPathLoops.RoundNeverEnds` are rounds that the guard cuts: it compares
  lengths and not paths, so a round can stop at a declaration that an earlier round or another branch
  was at with a different path of the same length.
- A stop begun with SIGKILL delivers SIGKILL twice to a stage that outlives it: `DevWebShutdown.KilledTwice`
  is such a run, and `DevWebShutdown.RepeatsIff` shows that in no other case a stage gets a signal
  twice. The command itself never begins a stop that way (`DevWebShutdown.CommandStopsAsRequested`).

## Model

| member | source | states |
|---|---|---|
| Digraph.ReachIsPath | scripts/package-graph.ts:92-144 | The reachability used in every graph theorem is the existence of a path along dependencies of remaining packages |
| SinkCycles.SinkSearch.Search | scripts/package-graph.ts:94-144 | The search lists exactly the maximal strongly connected components of the remaining graph that are cyclic and have no edge leaving them, each once and without repeated members; if every package waits for another, there is at least one |
| SinkCycles.SinkSearch.Visit | scripts/package-graph.ts:102-133 | A visit from a fresh package keeps the whole search invariant, leaves the older part of the stack untouched, and either emits the package or leaves it stacked with a low-link that names a reachable older package and bounds every such package from below |
| SinkCycles.SinkSearch.VisitDependency | scripts/package-graph.ts:109-118 | Handling dependency i extends what is known of the first i dependencies to i + 1: each is settled, or its index bounds the low-link |
| SinkCycles.SinkSearch.PopComponent | scripts/package-graph.ts:120-131 | Popping down to the root removes exactly the segment above and including it, in reverse, never from an empty stack |
| SinkCycles.SegmentIsScc | scripts/package-graph.ts:119-132 | When a package's low-link equals its index, the stack segment from it upwards is a maximal strongly connected component |
| SinkCycles.KeepsSinkCycles | scripts/package-graph.ts:138-143 | The filter on an emitted component holds exactly when the component is cyclic (more than one member or a self-dependency) and no edge leaves it |
| SinkCycles.CoversEveryScc | scripts/package-graph.ts:135-138 | When the search ends, every maximal strongly connected component is one of the emitted ones |
| SinkCycles.FirstComponentIsSink | scripts/package-graph.ts:76-80 | In a nonempty graph where every package waits for another, the first emitted component is a cyclic sink, so the fallback always finds one |
| PackageOrder.TopoSort | scripts/package-graph.ts:60-90 | Terminates on every input; succeeds exactly when every dependency names a known package; the output is then the rounds of a complete ordering; otherwise the error names the first missing dependency in reading order, and never "could not order" |
| PackageOrder.NextLayer | scripts/package-graph.ts:73-82 | A round consists of exactly the ready packages, or if none is ready, of a sink cycle led by the least package of all sink cycles; sorted either way |
| PackageOrder.Place | scripts/package-graph.ts:83-87 | Placing a round appends it and moves exactly its packages from remaining to placed |
| PackageOrder.CheckPeers | scripts/package-graph.ts:62-68 | Reports nothing exactly when all dependencies are known, and otherwise the first unknown one in reading order |
| PackageOrder.ChosenCycle | scripts/package-graph.ts:77-81 | The first of the sorted sink cycles is a legal round: no member of any other sink cycle ranks before its first package |
| PackageOrder.NothingReady | scripts/package-graph.ts:76 | If nothing is ready and every dependency is known, then every remaining package waits for a remaining one |
| PackageOrder.Ranking.ComparePreorder | scripts/package-graph.ts:152-158 | Given a consistent string comparison, the three-stage package comparison is total and transitive |
| PackageOrder.Ranking.CompareStrict | scripts/package-graph.ts:152-158 | With a strict string comparison, two packages that compare equal have the same short name |
| PackageOrderLaws.DependencyFirst | scripts/package-graph.ts:31-33 | In the output, a dependency that does not precede its dependent is mutually reachable with it in the original graph |
| PackageOrderLaws.CyclesContiguous | scripts/package-graph.ts:31-33 | Everything that stands between two members of one strongly connected component of the original graph belongs to that component |
| PackageOrderLaws.EachOnce | scripts/package-graph.ts:69-89 | The output holds every package once and nothing else |
| PackageOrderLaws.LayersAreBlocks | scripts/package-graph.ts:72-88 | The output is a concatenation of whole strongly connected components of the original graph, each with edges only to itself and to earlier ones |
| PackageOrderLaws.SinkIsComponent | scripts/package-graph.ts:77-81 | A sink cycle of the remaining graph is a maximal strongly connected component of the whole graph |
| PackageOrderLaws.ReadyIsComponent | scripts/package-graph.ts:73-74 | A package whose dependencies are all placed is a component by itself |
| PackageOrderLaws.OrderingUnique | scripts/package-graph.ts:72-88 | With no ties between names, any two complete orderings of the same packages are the same list |
| PackageOrderLaws.InputOrderIrrelevant | scripts/package-graph.ts:60-90 | Uniquely named packages come out in the same order however the input lists them |
| PackageRounds.CompareMeans | scripts/package-graph.ts:152-158 | A package may stand before another exactly when its group stands first in the group order, or alone stands in it, or neither does and the group names decide; equal groups are decided by the short names |
| PackageRounds.RoundsKeepRule | scripts/package-graph.ts:72-88 | Every round of a finished ordering is everything that waits for nothing outside earlier rounds, or if there is no such package, a knot of packages waiting for each other and nothing else, led by a package that may stand before every member of every knot; no round holds a pair in the wrong order of groups and names |
| PackageRounds.KnotIsSinkCycle | scripts/package-graph.ts:138-143 | The sink cycles of the remaining graph are exactly the sets whose members all wait for each other by chains of dependencies over remaining packages, and for nothing else that remains |
| PackageRounds.RankedPair | scripts/package-graph.ts:152-158 | In the output a package in no cycle that has every dependency of a later one comes before it in the caller's order of groups and names |
| PackageRounds.OrderPackages | scripts/package-graph.ts:57-90 | There is a result exactly when every dependency names a package of the list; it holds the last package of every name once, dependencies first except where they wait for their dependents, cycles in one piece, and the caller's order wherever dependencies leave it open; otherwise the first dependency in reading order that names none is reported |
| Sorting.SortStable | scripts/migrate-sessions-to-v4.ts:80-82 | Sorting leaves entries that compare equal in the order they had, as the language's sort does |
| CoveragePartitions.AssignWeightedPartitions | scripts/coverage-partitions.ts:305-328 | Fails exactly for files without a partition; otherwise returns the requested number of lists, and they are what one greedy run over the descending order leaves in each bucket |
| CoveragePartitions.SiftDown | scripts/coverage-partitions.ts:331-359 | From a heap broken only at the root, the in-place sift restores the heap order and keeps the entries a permutation of the bucket indices |
| CoveragePartitions.Smallest | scripts/coverage-partitions.ts:338-350 | Picks the position itself if neither child is below it, and otherwise a least child |
| CoveragePartitions.PlaceJob | scripts/coverage-partitions.ts:318-326 | Putting a file in the root bucket changes that bucket alone, by that file and weight, and keeps the heap and its meaning |
| CoveragePartitions.RootIsLeast | scripts/coverage-partitions.ts:315-320 | In heap order the root's bucket is least among all buckets |
| CoveragePartitions.SwapDown | scripts/coverage-partitions.ts:352-357 | Exchanging a too heavy entry with its least child moves the only violation of the heap order to that child |
| PartitionLaws.OrderFacts | scripts/coverage-partitions.ts:311-313 | The placing order is the given files, each with its recorded duration or else exactly 1, in descending order and by name among equal weights |
| PartitionLaws.PlacedInTurn | scripts/coverage-partitions.ts:305-328 | The result is what comes of placing all files in an order of falling duration, 1 where none is recorded, each in a partition that is then lightest, and shortest among the lightest |
| PartitionLaws.FilesConserved | scripts/coverage-partitions.ts:318-327 | Over all partitions, every file is placed exactly as often as it was given |
| PartitionLaws.LoadIsWeight | scripts/coverage-partitions.ts:382-384 | The sum that a bucket accumulated is the partition weight of its files |
| PartitionLaws.WithinRatioOfBest | scripts/coverage-partitions.ts:297-328 | When no recorded duration is negative, no partition's sum of recorded durations, with 1 for a file without one, exceeds 4/3 - 1/(3m) of the heaviest partition of any other split of the same files into m lists |
| GrahamBound.MakespanBound | scripts/coverage-partitions.ts:297-302 | The same bound for the heaviest bucket of any greedy run over descending weights against the heaviest bucket of any assignment |
| GrahamBound.BigJobsFit | scripts/coverage-partitions.ts:297-302 | When the last job is heavier than a third of the best possible maximum, the greedy choice still does not exceed that maximum |
| GreedyRuns.SameKeys | scripts/coverage-partitions.ts:315-326 | All greedy runs over the same weights end with the same multiset of bucket keys (weight and count), so the heap is as good as scanning for a minimum |
| GreedyRuns.NoneEmptyIff | scripts/coverage-partitions.ts:315-326 | A greedy run over descending weights fills all m buckets exactly when there are at least m jobs and the first m - 1 weights are not negative |
| PartitionLaws.NonEmptyIff | scripts/coverage-partitions.ts:494-502 | No partition is empty exactly when there are at least as many files as partitions m and at least m - 1 of them have a weight that is not negative |
| PartitionLaws.FewFilesLeaveEmpty | scripts/coverage-partitions.ts:303 | One file leaves one of two partitions empty |
| PartitionLaws.NegativeDurationsLeaveEmpty | scripts/coverage-partitions.ts:303 | Two files with recorded duration -1 leave one of two partitions empty |
| SchemaPathRules.LiteralName | scripts/gen-config-catalog.ts:438-441 | In a literal a name is found exactly when some declared property has it, and missing otherwise |
| SchemaPathRules.LiteralPath | scripts/gen-config-catalog.ts:411-419 | A longer path goes on in the type of the first declared property of its name, and is unknown where that has no type |
| SchemaPathRules.LiteralLacks | scripts/gen-config-catalog.ts:438-441 | A path whose first name no declared property has is missing, whatever follows |
| SchemaPathRules.InterfaceDeclares | scripts/gen-config-catalog.ts:420-424 | In an interface a declared property decides in the same way, whatever the bases say |
| SchemaPathRules.InterfaceLacks | scripts/gen-config-catalog.ts:425-436 | Without such a property the bases are asked one after the other: found when one has the path, missing when all lack it or there is none |
| SchemaPathRules.IntersectionAsks | scripts/gen-config-catalog.ts:443-445 | An intersection has a path when one part has it, and lacks it when all parts do |
| SchemaPathRules.UnionAsks | scripts/gen-config-catalog.ts:446-452 | A union has a path when all branches have it, and lacks it when there are branches and all do |
| SchemaPathRules.WrapperPasses | scripts/gen-config-catalog.ts:468-470 | `Partial`, `Required`, `Readonly` and `NonNullable` pass the path on to their first argument |
| SchemaPathRules.ArrayPasses | scripts/gen-config-catalog.ts:471-473 | `Array` and `ReadonlyArray` pass what follows an array step on to their argument, and leave every other path unknown |
| SchemaPathRules.NameResolves | scripts/gen-config-catalog.ts:474-477 | Any other name leads to the declaration that the file knows by it; a qualified or unknown name leaves the path unknown |
| SchemaPathRules.AliasPasses | scripts/gen-config-catalog.ts:398-402 | An alias is asked in its own file with its key remembered, and a key met before leaves the path unknown |
| SchemaPathRules.LiteralDerives | scripts/gen-config-catalog.ts:411-441 | A name is derivably present in a literal exactly when some declared property has it, and derivably absent otherwise |
| SchemaPathRules.LiteralDerivesPath | scripts/gen-config-catalog.ts:411-419 | A longer path is derived in the type of the first property of its name |
| SchemaPathRules.InterfaceDerivesPath | scripts/gen-config-catalog.ts:420-424 | The same for an interface, with the rest of the path derived in the first such property |
| SchemaPathRules.InterfaceDerivesFromBases | scripts/gen-config-catalog.ts:425-436 | Without such a property, presence is derived from one base and absence from all of them |
| SchemaPathLaws.LookupSound | scripts/gen-config-catalog.ts:393-479 | For every type node, path and guard, a found or missing verdict has a guard-free derivation; the converse is SchemaPathCost.DeclDecides without the guard and SchemaPathDecides.DecidesExactly with it |
| SchemaPathLaws.DeclSound | scripts/gen-config-catalog.ts:398-437 | The same for a named declaration, where the guard is consulted and extended; the converse as above |
| SchemaPathLaws.DeclExclusive | scripts/gen-config-catalog.ts:405-436 | No path is both derivably present and derivably absent in a declaration, at any depths |
| SchemaPathLaws.MissingIsAbsent | scripts/gen-config-catalog.ts:290-293 | A reported miss is never a member that a derivation of any depth makes present |
| SchemaPathLaws.FoundIsPresent | scripts/gen-config-catalog.ts:290-293 | A found path has a derivation and is never derivably absent |
| SchemaPathGuard.DeclAgrees | scripts/gen-config-catalog.ts:398-402 | Where the guard-free walk meets no declaration twice with as many steps left, and none the guard holds, the guarded walk has the same verdict and remembers exactly what was met |
| SchemaPathCost.DeclDecides | scripts/gen-config-catalog.ts:405-479 | Whenever the guard-free walk ends, it answers whatever is derivably present or absent |
| SchemaPathCost.GuardOnlyWeakens | scripts/gen-config-catalog.ts:398-402 | Whatever the guard already holds, the guarded walk answers like the guard-free one or unknown |
| SchemaPathCost.LossNeedsRepeat | scripts/gen-config-catalog.ts:398-402 | If the walk answers unknown from an empty guard although the path is derivably present or absent, then some declaration is met twice with as many steps left |
| SchemaPathDecides.GuardCostsNothing | scripts/gen-config-catalog.ts:398-402 | When no choice reaches a declaration in two branches and every cycle of references consumes steps, the guard changes no verdict at any depth |
| SchemaPathDecides.DecidesExactly | scripts/gen-config-catalog.ts:385-392 | Under that condition the walk finds exactly the derivably present paths and misses exactly the derivably absent ones |
| SchemaPathDecides.RecursiveIsClean | scripts/gen-config-catalog.ts:395-402 | `interface A { x: A; y }`, recursive through a member, meets that condition |
| SchemaReferences.PotentialIff | scripts/gen-config-catalog.ts:457-463 | The steps that references can still add are bounded at every declaration exactly when no cycle of references adds more steps than it consumes |
| SchemaPathEnds.DeclDeeper | scripts/gen-config-catalog.ts:393-479 | Once the walk has ended, a greater recursion depth changes nothing |
| SchemaPathEnds.EndsIffBounded | scripts/gen-config-catalog.ts:395-402 | The walk ends exactly when the paths it meets declarations with do not grow beyond every bound |
| SchemaPathEnds.WalkEnds | scripts/gen-config-catalog.ts:393-479 | The walk ends on every path and guard when no cycle among the declarations reachable from its start adds more steps than it consumes; sufficient only, see SchemaPathPumping.GainWithoutPump |
| SchemaPathEnds.NoSelfGainEnds | scripts/gen-config-catalog.ts:457-463 | In particular when no reachable declaration reaches itself through a reference that adds steps, however many indexed accesses there are |
| SchemaPathEnds.ElsewhereIsFound | scripts/gen-config-catalog.ts:457-463 | An access such as `type B = A['x']` meets that condition, and the member it leads to is found |
| SchemaPathLoops.RoundNeverEnds | scripts/gen-config-catalog.ts:457-463 | A round of different declarations, each reached by the first branch of every choice, that starts with a path and comes back with steps added behind it makes the walk endless, whatever follows on the path |
| SchemaPathLoops.IndexedAccessLoops | scripts/gen-config-catalog.ts:457-463 | For a type that indexes itself, no recursion depth is enough |
| SchemaPathLoops.DoublingLoops | scripts/gen-config-catalog.ts:457-463 | Two declarations of which neither indexes itself, in a cycle that consumes one step and adds two, make the walk endless |
| SchemaPathPumping.EndlessNeedsPump | scripts/gen-config-catalog.ts:457-463 | A walk that never ends can go, on its own path, to a literal indexed access that some branches lead from its object with just the step it adds back to itself with at least one step, whatever path lies below |
| SchemaPathPumping.GainWithoutPump | scripts/gen-config-catalog.ts:457-463 | For `interface A { x: A['y']['z']; y: { z } }` a cycle adds a step and the walk of `x.q` ends all the same |
| SchemaPathCost.DiamondIsUnknown | scripts/gen-config-catalog.ts:398-402 | A union of two references to one plain interface is answered unknown though its member is derivably present |
| SchemaPathLoss.DeclEndsToo | scripts/gen-config-catalog.ts:398-402 | Where the guard-free walk ends, the guarded one ends at no greater depth |
| SchemaPathLoss.RepeatedBranchIsUnknown | scripts/gen-config-catalog.ts:446-452 | For every alias of a union that names one declaration in two branches, and every path, the walk answers nothing but unknown, and answers whenever the guard-free walk ends |
| TypeClosure.Collect | scripts/gen-config-catalog.ts:760-814 | Terminates; reports no violation exactly when every use reached from the config type resolves, to one meaning per name, with documented declarations; the two tables then hold exactly the reached names; each reported violation is true of uses in the closure; and in every case each use handled is recorded or has the violation of its own kind, all mentions of a pasted declaration are handled, and an undocumented one is reported |
| TypeClosure.Refuse | scripts/gen-config-catalog.ts:770-802 | A use is refused only when the closure cannot be listed, for a reason that is true, and an accepted use agrees with both tables |
| TypeClosure.MentionsSettled | scripts/gen-config-catalog.ts:803-814 | In an accepted result every non-global name that a pasted declaration mentions is in exactly one table, with the meaning it has in that declaration's file |
| TypeClosure.ReachedIsChain | scripts/gen-config-catalog.ts:806-811 | The closure is exactly what chains of mentions lead to from the config type |
| PoolInvariant.RunInv | scripts/migrate-sessions-to-v4.ts:148-165 | The pool invariant holds in every state of every interleaving |
| PoolRuns.ClaimedPrefix | scripts/migrate-sessions-to-v4.ts:153-160 | In every reachable state the claimed inputs are exactly the first next ones, each visited or held by one worker but not both, with at most min(jobs, count) workers |
| PoolRuns.FinishedRun | scripts/migrate-sessions-to-v4.ts:161-164 | A finished run rejected nothing, visited every input once, and then retried exactly the deferred ones, once each, in ascending order, after all initial visits |
| PoolRuns.AbortedRun | scripts/migrate-sessions-to-v4.ts:142-163 | An aborted run rejected something and has drained; a rejected initial visit suppresses every retry |
| PoolRuns.StepsDecrease | scripts/migrate-sessions-to-v4.ts:148-165 | Every step of the pool decreases a bound on the steps still to come |
| PoolRuns.RunsAreShort | scripts/migrate-sessions-to-v4.ts:148-165 | So no run is longer than a bound fixed by the number of inputs and jobs |
| PoolRuns.NeverStuck | scripts/migrate-sessions-to-v4.ts:148-165 | A pool that has not finished or aborted can take a step as soon as a pending visit completes |
| MigrationReport.Report.RecordOutcome | scripts/migrate-sessions-to-v4.ts:178-182 | Counting any outcome keeps the totals and the per-version table equal to the tallies of all recorded outcomes |
| MigrationReport.Report.Fail | scripts/migrate-sessions-to-v4.ts:184-190 | A failure is kept and counted, so there are as many failures as the total says |
| MigrationReport.TableAddsUp | scripts/migrate-sessions-to-v4.ts:176-182 | Each column of the per-version table adds up to its total, and the totals add up to the recorded outcomes |
| MigrationReport.Replay | scripts/migrate-sessions-to-v4.ts:176-190 | Counting each settled visit of a run as it completes leaves a report whose records are exactly the outcomes of the settled visits |
| MigrationReport.OutcomesConserved | scripts/migrate-sessions-to-v4.ts:148-165 | If no visit of a finished run is deferred twice, counters that tally the settled visits add up to the number of inputs; that the report's counters do is MigrationReport.Replay |
| MigrationVisits.CallbackSettles | scripts/migrate-sessions-to-v4.ts:223-246 | The visit callback never defers a retry, and rejects exactly when something else than processing the input fails |
| MigrationVisits.CallbackNeverAborts | scripts/migrate-sessions-to-v4.ts:223-246 | A run in which only processing the inputs fails never aborts |
| MigrationVisits.EachSettledOnce | scripts/migrate-sessions-to-v4.ts:212-247 | Over every interleaving and every result of the attempts, exactly one visit settles each input: the first one, or its retry if the first was deferred |
| MigrationOutcomes.VisitOutcome | scripts/migrate-sessions-to-v4.ts:222-245 | A settling visit counts as skipped exactly for an intact input without a source, as already current exactly when a source of version 4 was opened, as converted exactly when one of another version was, and as failed otherwise, under the version of the source or `unknown`; it defers exactly a changed source at the first attempt |
| MigrationOutcomes.ReportOf | scripts/migrate-sessions-to-v4.ts:176-245 | For every finished run, whatever the attempts come to: each total, and each cell of the per-version table, is the number of the inputs whose last attempt counts so; the versions of the table are those of the inputs; the totals add up to the inputs, and there is one diagnostic for each failed one |
| MigrationReport.SummarizeFailures | scripts/migrate-sessions-to-v4.ts:60-83 | Two failures stand in one group exactly when version, reason, error name, event type, member and child agree; a group holds every failure of its facts as often as it occurred, is counted and not empty, and groups and items come in order |
| MigrationReport.GroupCountsAddUp | scripts/migrate-sessions-to-v4.ts:78-79 | The group counts add up to the number of failures |
| DevWebShutdown.ResolvedMeansExited | scripts/dev-web.ts:258-273 | On every schedule, and for a stop begun with any signal or none, the stop resolves only when every stage added before it began has exited; with none added later, nothing is live |
| DevWebShutdown.SignalsArePrefix | scripts/dev-web.ts:262-273 | Each such stage has received a prefix of the initial signal if any, SIGTERM, SIGKILL |
| DevWebShutdown.PlanDelivers | scripts/dev-web.ts:264-271 | The escalation delivers SIGTERM and SIGKILL, after the signal the stop was begun with unless that is SIGTERM |
| DevWebShutdown.ReapedSawEverything | scripts/dev-web.ts:266-272 | A stage still live at the final kill has received the whole escalation |
| DevWebShutdown.PlanRepeatsIff | scripts/dev-web.ts:264-271 | The escalation ends with SIGTERM, SIGKILL, starts with the signal the stop was begun with, and holds a signal twice exactly for SIGKILL |
| DevWebShutdown.RepeatsIff | scripts/dev-web.ts:262-273 | In every run, a stage that was there from the beginning has received a signal twice exactly when the stop was begun with SIGKILL and all three signals were sent to it |
| DevWebShutdown.KilledTwice | scripts/dev-web.ts:262-273 | A run in which a stage receives SIGKILL, SIGTERM, SIGKILL |
| DevWebShutdown.StaleReports | scripts/dev-web.ts:250-256 | A stage is reported stale exactly once if it exits before the stop begins, and never otherwise |
| DevWebShutdown.FirstRequestWins | scripts/dev-web.ts:347-354 | Once a shutdown is requested, the guarded record keeps the code and signal of the first request, whatever is requested later |
| DevWebShutdown.CommandStopsAsRequested | scripts/dev-web.ts:346-363 | The command begins its stop with the signal of the first request, which is never SIGKILL |
| DevWebShutdown.RequestsAreProper | scripts/dev-web.ts:355-363 | Over every run, code 130 is requested without a signal, codes 0 and 1 with SIGTERM, and code 1 exactly once for each stale stage |
| DevWebShutdown.FirstCauseDecides | scripts/dev-web.ts:346-363 | If an interrupt is the first to request a shutdown the exit code stays 130 and the stop sends no signal of its own before SIGTERM; a termination gives 0 and a stage's own exit 1, both with SIGTERM |
| DevWebShutdown.InterruptedRun | scripts/dev-web.ts:346-363 | A run of the command that is interrupted, stops without a signal, and keeps that when told to terminate |
| DevWebShutdown.StopIsFrozen | scripts/dev-web.ts:252-263 | Once the stop has begun it stays begun, with the same signal, and reports nothing more |
| DevWebShutdown.StopGoesOn | scripts/dev-web.ts:266-282 | A begun stop can always proceed, except while a stage that was sent SIGKILL is still live |
| ReadinessGate.Gate.OnBuildDone | scripts/dev-web.ts:192-200 | After any build event, repeated or not, the gate is open exactly when the bundle count is known and that many different watchers have built |
| ReadinessGate.Gate.OnBundlesKnown | scripts/dev-web.ts:206-207 | The same when the count becomes known, however many builds came first |
| ReadinessGate.ReadyGrows | scripts/dev-web.ts:183-208 | No event takes readiness back |
| ArtifactDigest.FeedDigest | scripts/client-build-environment.ts:338-345 | The updates feed the hash the stream of length-prefixed paths and contents |
| ArtifactDigest.StreamGrows | scripts/client-build-environment.ts:338-345 | Each artifact adds the decimal length of its path, a colon, the path, and the same for its content |
| ArtifactDigest.DecodeStream | scripts/client-build-environment.ts:338-345 | The stream can be decoded to the very list of paths and contents, whatever bytes these hold |
| ArtifactDigest.StreamInjective | scripts/client-build-environment.ts:330-346 | Different artifact lists never feed the hash the same bytes |
| Decimal.ValuePrint | scripts/client-build-environment.ts:341-343 | Reading printed decimal digits gives the number back |
| Decimal.PrintIsPlain | scripts/client-build-environment.ts:341-343 | Only the characters 0 to 9 are printed, and no leading zero |
| GitBatch.ReadGitFiles | scripts/benchmark-npm-resolution.ts:151-168 | The offset loop agrees with reading one answer after another off the front of the output, errors included |
| GitBatch.ReadBatch | scripts/benchmark-npm-resolution.ts:145-169 | For existing objects with arbitrary content, newlines and digits included, reading git's output gives back exactly the contents and consumes all of it |
| GitBatch.ReadBatchMissing | scripts/benchmark-npm-resolution.ts:157 | The first path without an object is the one reported as missing |
| GitBatch.HeaderSize | scripts/benchmark-npm-resolution.ts:156-161 | The size field of a printed header is parsed back to the content's length, and the header is not mistaken for a missing object |
| GitBatch.AnswerText | scripts/benchmark-npm-resolution.ts:145-169 | The text that is taken for git's answers: name, kind and size with blanks, the content and newlines; or the name and ` missing` |
| GitBatch.ReadsNumber | scripts/benchmark-npm-resolution.ts:158 | The size may stand behind white space and a sign and before anything that is no digit; without a digit there is none |
| GitBatch.SizeLimit | scripts/benchmark-npm-resolution.ts:158-161 | Sizes are taken up to 9007199254740991 and no further |
| GitBatch.CutShort | scripts/benchmark-npm-resolution.ts:154-165 | An answer cut short anywhere is an error: a missing header up to the header's end, and truncated content behind it |
| Candidates.Search | scripts/benchmark-next-package-dependency.ts:141-158 | The search terminates and reaches exactly the resolvable packages that installation paths along resolvable packages lead to from the target, duplicates in the queue notwithstanding |
| Candidates.DiscoverBenchmarkCandidates | scripts/benchmark-next-package-dependency.ts:134-165 | The candidates are exactly the released packages outside the policy, with a peer other than Cordis in the manifest of the workspace's version, that a chain of installed packages leads to from the target, each once and sorted |
| Candidates.InstallEdge | scripts/benchmark-next-package-dependency.ts:149-154 | One resolvable package leads to another exactly through a dependency, an optional dependency or a peer that is not optional |
| Text.LinesArePieces | scripts/markdown.ts:219-233 | Line i is the piece of the source at the running offset, followed by a newline unless it is the last |
| Text.LinesJoin | scripts/markdown.ts:256 | Splitting at newlines gives back lines that were joined by them, and Text.JoinLines the other way round |
| Text.WordsAreRuns | scripts/jsdoc.ts:45 | The words of a text are the maximal runs without white space, in order |
| Text.SpacesAre | scripts/jsdoc.ts:45 | White space is the 25 characters that the language counts as such |
| MarkdownProse.CommentsAreFirst | scripts/markdown.ts:207-216 | Every comment starts at the first opening after the comment before it and ends after the first close behind that opening, or with the node |
| MarkdownProse.NoCommentAfterLast | scripts/markdown.ts:209-211 | No opening is left after the last comment |
| MarkdownProse.CommentsInSource | scripts/markdown.ts:206-218 | When the HTML nodes are pieces of the source, every range starts at an opening in the source inside some node and ends behind the first close after it in that node, or with the node if there is none |
| MarkdownProse.LineRangesCover | scripts/markdown.ts:221-231 | A line has column ranges exactly when a comment touches it, an empty line inside a comment included, and they cover exactly the columns whose offsets lie in some comment |
| MarkdownProse.HtmlCommentRanges | scripts/markdown.ts:203-235 | The table holds the ranges of every line under its number, and nothing for untouched lines |
| MarkdownProse.HasRenderedTextOutsideComments | scripts/markdown.ts:238-248 | The sweep over sorted, possibly overlapping ranges finds text exactly when some character that is not white space lies outside all of them |
| MarkdownLines.ScanIsScanned | scripts/markdown.ts:207-216 | The comments of a node are scanned from its text: each the first `<!--` behind the one before, up to the next `-->` or the end, and none left behind the last |
| MarkdownLines.MarkdownProseLines | scripts/markdown.ts:255-271 | A line is kept, verbatim and in order, exactly when it lies in no code block, first and last line included, and either no comment touches it or some character of it that is not white space lies outside every comment |
| JsDocPages.ParseJsDoc | scripts/jsdoc.ts:38-82 | The lines before the first tag are a page of sections, each an introduction of plain lines and items that a dash and white space open, with blank lines between; the text is the words of each introduction and item on a line, items on successive lines and an empty line between blocks; the mode is the last that a line declares as exactly `@mode` and one of the five names, and a mode tag is noticed whatever its value |
| JsDocPages.OnePage | scripts/jsdoc.ts:62-80 | There is only one way to read the lines as a page, so any reading gives the text |
| JsDocPages.EveryPage | scripts/jsdoc.ts:62-80 | And every comment can be read so |
| JsDocPages.IntroAndItems | scripts/jsdoc.ts:68-78 | An introduction with items right below comes out as its words on one line, an empty line, and one line for each item; items alone as lines |
| JsDocPages.TidyIsWords | scripts/jsdoc.ts:45 | Collapsing and trimming joined lines leaves their words with single blanks |
| JsDocPages.ModeMeans | scripts/jsdoc.ts:62-63 | Each of the five names declares its own mode |
| JsDocProse.ProseReader.Take | scripts/jsdoc.ts:69-79 | A line extends the open paragraph or item or opens an item, and a paragraph and a list are never pending together |
| JsDocProse.ProseReader.FlushPara | scripts/jsdoc.ts:47-61 | Flushing writes out the pending paragraph or list completely and leaves nothing pending |
| JsDocProse.WordsConserved | scripts/jsdoc.ts:23-27 | Before links are rewritten, the words of the text are exactly the words of the lines before the first tag, in order |
| JsDocProse.TidyIsOneLine | scripts/jsdoc.ts:45 | A paragraph and an item come out on one line each |
| JsDocProse.ModeLineIsTag | scripts/jsdoc.ts:64-66 | A line that declares a mode is a tag line, so it always ends the prose |
| PackageOwner.OwnerIsNearest | scripts/bundle-input-isolation.ts:62-73 | The owner is named by the nearest directory upwards whose manifest has a name, unless an unreadable manifest is nearer; without either there is none |
| PackageOwner.BundleInputIsolation.PackageName | scripts/bundle-input-isolation.ts:62-73 | With right entries in the memory the answer is the one without a memory, and the memory stays right |
| PackageOwner.BundleInputIsolation.PackageNames | scripts/bundle-input-isolation.ts:62-73 | Any sequence of lookups gives every directory its own owner, whatever was asked before |
| PackageOwner.BundleInputIsolation.Reset | scripts/bundle-input-isolation.ts:19 | After a reset the memory is right for any files |

## Left out

- SinkCycles.SinkSearch.Visit: packages are identified by their short names inside the search, as the name map makes them; one loop turn and the part after the loop are methods of their own.
- PackageRounds.OrderPackages: the caller's order is stated for group orders of fewer than 2^32 entries, as many as an array can have.
- PackageOrder.TopoSort: `localeCompare` is a parameter that is assumed consistent, and strict where uniqueness is stated; reading the manifests (`collectPackageGraph`) is not modelled.
- CoveragePartitions.AssignWeightedPartitions: weights are exact reals, so floating-point rounding of the bucket sums is not captured; the "bucket is missing" error is a proved index bound rather than a result.
- PartitionLaws.WithinRatioOfBest: requires weights that are not negative, for which the ratio is meant; files and emptiness are settled for all weights.
- SchemaPathEnds.WalkEnds: the condition is sufficient; rounds that the guard cuts are covered by `SchemaPathEnds.EndsIffBounded` only.
- SchemaPathDecides.DecidesExactly: the condition is sufficient; a repeated key can also be harmless.
- SchemaPath.Lookup: type nodes are a datatype of the shapes the walk distinguishes, declarations are found by a total name function, and the recursion depth stands for the call stack; `parsePath`, schema expressions and re-export chains are not modelled.
- TypeClosure.Collect: the order of the pasted declarations is not stated beyond the config type coming first; the wording and the sorting of the reference list by alias is left out; how a use resolves is given by a table, so the chase through package-local imports in `resolveTypeName`, which has no guard of its own, is not part of the model; documentation of a declaration is one flag.
- MigrationPool.Run: visits are results that arrive in any order; what a visit does to the file system is not modelled.
- MigrationVisits.Visit: opening a Session is an attempt that succeeds, finds the source changed, or breaks, chosen freely at every visit; a log that cannot be written rejects the visit, but that it may do so after an outcome was counted is not modelled.
- MigrationReport.SummarizeFailures: the key text and its comparison are parameters; the key itself is the tuple of recognised facts.
- DevWebShutdown.Run: a stage added after the stop began may outlive it, as in the source; a second concurrent stop is not modelled, and time is an arbitrary moment.
- ReadinessGate.Gate.OnBuildDone: watchers are identities; a gate whose build call never returns is not modelled.
- ArtifactDigest.StreamInjective: the hash function itself, so that equal streams rather than equal digests are compared.
- GitBatch.ReadGitFiles: headers and contents are bytes and are not decoded as UTF-8; the number parser skips ASCII white space only.
- Candidates.DiscoverBenchmarkCandidates: the string order is a parameter; version ranges are not read, and `mapConcurrent` is left out because the pool above already covers that pattern.
- MarkdownLines.MarkdownProseLines: the Markdown parser; its HTML and code nodes are arbitrary inputs, and only MarkdownProse.CommentsInSource takes them for pieces of the source.
- JsDocPages.ParseJsDoc: the comment delimiters and line gutters are removed beforehand, and the rewriting of links and the final trim afterwards are not modelled; neither is `parseTags`.
- PackageOwner.BundleInputIsolation.PackageName: files are fixed between resets; links and the physical path checks of `checkInput` are not modelled.
- Environment filters, workspace policy checks, rendering, packaging and the command lines: branch-by-branch code without an invariant that spans operations.
