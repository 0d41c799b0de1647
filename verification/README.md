# The graph pipeline of cicada, in Dafny

cicada turns a KDL file into a graph of container jobs and runs it. Every stage works on the same
finite dependency graph: includes are resolved and merged, aliases and matrices expanded, the
result validated and sorted, optionally filtered, built dependencies first, and executed by a
concurrent scheduler that reports to a display. This project models those stages and proves that
each keeps what the next one relies on.

One theory of finite graphs (`DependencyGraph.dfy`: paths, reachability, cycles, ranks,
homomorphisms) carries all proofs. Searches and sorts are proved against reachability by explicit
paths, a definition none of them uses.

| file | part of the system |
|---|---|
| `Include.dfy`, `IncludeVisits.dfy`, `IncludeResolver.dfy`, `Entry.dfy`, `IncludeDepth.dfy` | include resolution: a specification without cache, stack limit or aliases; what a resolution visits and registers; the stateful resolver (ancestor stack, memo cache, alias table, group collector) proved against both; the entry file; the depth limit |
| `Merge.dfy`, `MergeOrder.dfy` | merging job groups, terminal jobs, alias expansion, what an alias covers, and that all of it keeps document order |
| `Strings.dfy`, `Substitute.dfy` | sorted keys; single-pass placeholder substitution |
| `Matrix.dfy`, `ExpandedNames.dfy`, `Expand.dfy`, `ExpandGraph.dfy`, `ExpandImports.dfy`, `ExpandContent.dfy`, `ExpandNames.dfy` | cartesian products, variant names, the two expansion phases, what they do to the graph, to imported files and to what jobs run, and which names keep everything apart |
| `Pipeline.dfy`, `FieldChecks.dfy`, `Validation.dfy` | the data, field checks and what each error means, `Validate` and its topological sort |
| `Filter.dfy`, `FilterMeaning.dfy`, `FilterSteps.dfy` | start-at / stop-after filtering, why it keeps what jobs are built to, and which steps and exports it leaves |
| `Builder.dfy`, `BuildResults.dfy` | building in order; the meaning of a pipeline as trees of job content and input states; what a build takes in and hands out |
| `Finalize.dfy` | the passes after merging: aliases, defaults, expansion, validation; an alias followed down to the scheduler |
| `Runner.dfy`, `Scheduler.dfy` | the run-time node index and cycle check; the scheduler as interleaved steps |
| `RunAction.dfy` | the run command from a valid pipeline to the scheduler |
| `Display.dfy` | the shutdown protocol of the interactive display |

Code that changes state step by step is modelled by classes and methods with loops (the include
state, the group collector, both depth-first searches, the shared visited set of the filter, the
in-place step trimming) and proved against functions and predicates on values; laws are then
lemmas about those. The two concurrent parts are state machines: theorems about them hold for
every interleaving and every run.

Facts worth knowing that the proofs brought out:

* Cache keys are unambiguous exactly if no path of the file set is another one followed by a
  question mark and encoded parameters (`KeysUnambiguousExactly`); otherwise the cache can answer
  for a file with a different one (`CollidingHitIsWrong`).
* The depth limit bounds the live stack, not the longest chain of includes: a chain of any length
  is accepted when its tails are included back to front (`LimitBoundsTheStackOnly`).
* A job that lists an alias depends on every job of the file behind it if nothing of the file was
  dropped (`IncludeAliasCoversFile`). When jobs were dropped by on-conflict=skip and the merged
  jobs, aliases followed, have no cycle, it does so exactly if every non-terminal job of the file
  is listed by a job whose name is in the file, or by an outside job that it reaches anyway
  (`AliasCoversExactly`); if no outside job lists inner jobs of the file, only the listing inside
  counts (`IsolatedAliasCoversExactly`). All of this can be read off the merged jobs and the alias
  table before anything is rewritten. Both outcomes occur (`SkippedJobBreaksCoverage`,
  `DroppedJobMayStayCovered`).
* A dependency may name a single variant by its expanded name; expansion leaves nothing missing
  exactly if every dependency names a job or a variant (`ExpandKeepsGraph`).
* Two variants can share a cache id exactly if one name, after a separator, ends with the other
  (`CacheIdsCollideExactly`), which needs an opening bracket in a key or value.
* A variant name can be read back exactly when the base has no bracket and keys and values have no
  separators (`RoundTrip`); a value with a comma loses its tail in phase 2 (`CommaIsLost`), and
  nothing checks for commas before expansion.
* An artifact from a job with several variants survives phase 2 only if the job's old name is now
  a variant's name (`ArtifactFollowsSingleVariant`), which readable names exclude
  (`ArtifactNeedsSingleVariant`); `Validate` then rejects it.
* Substitution is independent of Go's map order exactly when no placeholder starts another one
  (`OrderMattersOnlyWithPrefixes`).
* The comment at pkg/pipeline/expand.go:207-210 says cache ids are copied verbatim by
  `replicateJob`; the code substitutes placeholders in them (pkg/pipeline/params.go:67, 114-119).
  The model follows the code.

`dafny verify dfyconfig.toml` checks the whole project.

## Model

| member | source | states |
|---|---|---|
| Scheduler.SlotLimit | internal/runner/runner.go:155-159 | with jobs to run there is at least one slot, and only an explicit parallelism makes the number differ from the number of jobs |
| Scheduler.StepKeepsInv | internal/runner/runner.go:257-285 | every step of every goroutine keeps the invariant: phases, errors, close counts, slot conservation, errgroup state |
| Scheduler.RunKeepsInv | internal/runner/runner.go:169-179 | the invariant holds in every state of every interleaving |
| Scheduler.EnteredMeansDependenciesSolved | internal/runner/runner.go:260-277 | a job that ever entered Solve had every transitive dependency done with a nil error |
| Scheduler.SolvingIsSafe | internal/runner/runner.go:257-285 | at any moment all transitive dependencies of every job inside Solve have succeeded, at most `limit` jobs are inside Solve, and free plus held slots make the limit |
| Scheduler.ErrorsAreFinal | internal/runner/runner.go:260-284 | an error once stored in a node never changes |
| Scheduler.FailureStopsDependents | internal/runner/runner.go:260-271 | after a job has an error no transitive dependent is inside or past Solve at any later time, and each ends with an error of its own |
| Scheduler.ErrorNamesItsCause | internal/runner/runner.go:263-266 | the chain of "dependency failed" errors is a chain of dependencies down to a job that failed itself or was cancelled |
| Scheduler.NeverStuck | internal/runner/runner.go:257-285 | for every DAG and every limit >= 1 a reachable state that has not returned has an enabled step |
| Scheduler.StepDescends | internal/runner/runner.go:257-285 | every step lowers one global measure |
| Scheduler.EveryRunEnds | internal/runner/runner.go:139-196 | runs are finite; a run that cannot go on has returned, every done channel closed exactly once, all slots free, nil only after exports and publishing were reached, and nil from the job phase exactly if every job's Solve succeeded |
| Scheduler.ExportsNeedAllJobs | internal/runner/runner.go:177-196 | exports and publishes start only when every job succeeded |
| Scheduler.NilMeansPublished | internal/runner/runner.go:182-196 | in every run a nil result comes after the publish phase was reached |
| Scheduler.ResultTellsOutcome | internal/runner/runner.go:177-196 | nil exactly if exports and publishes went through, the export error exactly if the exports failed, the publish error exactly if the publishes failed, otherwise the error of the job phase |
| Scheduler.FailedExportStops | internal/runner/runner.go:191-193 | once the exports failed publishing is never reached |
| Scheduler.FirstErrorIsReturned | internal/runner/runner.go:169-179 | the first job error handed to the group cancels the rest and is what Run returns |
| Scheduler.NothingRunsAfterReturn | internal/runner/runner.go:169-196 | after Run has returned no job is inside Solve, where displays are attached, and none ever gets there again |
| Runner.CycleDetector.Visit | internal/runner/runner.go:231-247 | one visit: extends the finished order by everything below the node, or has found a real cycle; terminates |
| Runner.CycleDetector.DetectCycles | internal/runner/runner.go:224-254 | whatever order the map is ranged over, it fails exactly if the graph has a cycle |
| Runner.BuildDAG | internal/runner/runner.go:199-221 | which error, in the source's precedence: duplicate name, missing dependency, cycle; each exactly when; otherwise an index of all jobs whose graph is a DAG |
| Validation.JobGraph.Visit | pkg/pipeline/pipeline.go:480-501 | one visit of the three-state search: the order stays dependencies-first, a cycle error comes with a cycle, an unknown-dependency error with a missing name |
| Validation.JobGraph.TopoSort | pkg/pipeline/pipeline.go:470-509 | succeeds exactly on closed acyclic graphs and then returns a permutation with dependencies first |
| Validation.TopoOrderByName | pkg/pipeline/pipeline.go:503-508 | such an index order is a topological order of the named graph, and only a DAG has one |
| Validation.CheckJobs | pkg/pipeline/pipeline.go:257-261 | accepts exactly the job lists with unique names and clean fields, fills the name index, and reports a duplicate name or a field error that is true of some job |
| Validation.CheckSelfDeps | pkg/pipeline/pipeline.go:444-451 | fails exactly if some job depends on itself |
| Validation.PipelineFile.Validate | pkg/pipeline/pipeline.go:243-273 | accepts exactly the valid pipelines, stores the order only on success, and every error it reports is true of the pipeline |
| FieldChecks.JobErrorExactly | pkg/pipeline/pipeline.go:278-441 | a job fails its checks exactly if some field error is true of it, and the error it gets is a true one, for names, variables, exports, artifacts, publish target and steps |
| FieldChecks.ValidExactly | pkg/pipeline/pipeline.go:243-273 | a pipeline is valid exactly if no error is true of it |
| Pipeline.CheckedJobImportsFromDeps | pkg/pipeline/pipeline.go:396-430 | a job that passes its checks imports files only from its dependencies, at job and at step level |
| Builder.ValidOrder | internal/builder/builder.go:163-175 | accepts exactly the permutations of the job indices |
| Builder.BuildJob | internal/builder/builder.go:199-337 | succeeds exactly if every artifact source and dependency has a state and the job can run; it is built from exactly those states in that order |
| Builder.ReadyMeansTopological | internal/builder/builder.go:106-112 | on any permutation every lookup succeeds exactly if the order is topological |
| Builder.BuildInOrder | internal/builder/builder.go:101-142 | on any permutation it succeeds exactly if every lookup does and every job can be built; every job is built from the last states its names had, exports and publishes follow in turn (`BuildResults.PipelineExports` says which), and with unique names the result is that of the pipeline's meaning |
| Builder.Build | internal/builder/builder.go:76-143 | with a cached permutation it succeeds exactly if that is topological and every job can be built, otherwise exactly if the pipeline is valid and every job can be built; the result is described job by job for any names and is the pipeline's meaning for unique ones; the order it finds itself never misses a state |
| BuildResults.InputsExactly | internal/builder/builder.go:199-337 | a job is built from the states of its dependencies and of the jobs it imports from, and of no others |
| BuildResults.InputsInOrder | internal/builder/builder.go:199-337 | in this order: its imports, its dependencies, the imports of its steps |
| BuildResults.StripExactly | internal/builder/builder.go:199-337 | two jobs have the same content exactly if they differ at most in exports and publish target |
| BuildResults.CollectedInOrder | internal/builder/builder.go:145-161 | all exports of a job and its steps are collected as often as they are declared, the job's first, then those of the steps in order |
| BuildResults.CollectedExactly | internal/builder/builder.go:145-161 | an export is collected exactly if the job or one of its steps declares it |
| BuildResults.BuildHandsOutExports | internal/builder/builder.go:117-130 | every export of every built job or step comes out with its path, target, job name and final state, as a directory exactly for a trailing slash; nothing else comes out, and as many as were declared |
| BuildResults.BuildHandsOutImages | internal/builder/builder.go:132-139 | exactly the jobs with a publish target are published, each in its final state |
| BuildResults.PipelineExports | internal/builder/builder.go:106-142 | the same over a pipeline built in any order: what comes out is what its jobs declare |
| Builder.MeaningsAgree | internal/builder/builder.go:106-115 | two pipelines that agree up to exports on a set of jobs closed under inputs build them to the same states |
| Builder.MeaningIsUnique | internal/builder/builder.go:106-115 | job content and input states determine all built states, whatever the order |
| Filter.ParseFilterTarget | pkg/pipeline/filter.go:36-55 | splits at the first colon outside brackets |
| Filter.TargetRoundTrip | pkg/pipeline/filter.go:32-55 | job and job:step are read back for every job name whose colons are inside closed brackets |
| Filter.BuildJobAdj | pkg/pipeline/filter.go:66-106 | both adjacency maps are the graph and its transpose; target errors as the source orders them |
| FilterSteps.TargetsErrorExactly | pkg/pipeline/filter.go:84-119 | the flags are accepted exactly if each is not given or names an existing job and, if it names a step, a step of the last job so named; which error otherwise, start-at first |
| Filter.BfsReachable | pkg/pipeline/filter.go:253-267 | finds exactly the nodes reachable by a path |
| Filter.AddTransitiveDeps | pkg/pipeline/filter.go:292-300 | the shared visited set grows by reachable nodes only and ends closed around the new ones |
| Filter.FindWindow | pkg/pipeline/filter.go:140-158 | the window is what start-at reaches upwards over the edges of all jobs, intersected with what stop-after reaches downwards; with unique names that is descendants and ancestors in one graph |
| Filter.UniqueWindow | pkg/pipeline/filter.go:66-106 | with unique names the two readings of the graph are one |
| Filter.AddAllDeps | pkg/pipeline/filter.go:160-167 | the kept set is exactly everything some window job reaches |
| Filter.ApplyStepTrimming | pkg/pipeline/filter.go:206-230 | trims the step lists in place, or reports an empty step window exactly if there is one |
| FilterSteps.EmptyWindowExactly | pkg/pipeline/filter.go:216-221 | a step window is empty exactly if start-at names a later step than stop-after in the same job |
| FilterSteps.StepsLeft | pkg/pipeline/filter.go:169-251 | of a kept job stop-after leaves the steps up to the first one of that name, start-at takes the exports of the earlier ones, outside the window all exports go, and no step changes otherwise |
| Filter.SelectJobs | pkg/pipeline/filter.go:169-185 | keeps exactly the kept names, exports dropped outside the window |
| Filter.SelectedIsSublist | pkg/pipeline/filter.go:171-185 | the selection is a sublist in the original order that skips no kept job |
| Filter.FilterJobs | pkg/pipeline/filter.go:127-193 | the outcome for any job list: the first applicable error, each exactly when, or the trimmed selection |
| FilterMeaning.TruncatedIsSink | pkg/pipeline/filter.go:222-224 | no kept job depends on the job that stop-after job:step cuts short |
| FilterMeaning.FilteredFields | pkg/pipeline/filter.go:169-185 | a kept job changes in exports, publish target and steps only; inside the window it keeps the first two, outside it loses them |
| FilterMeaning.FilteredIsValid | pkg/pipeline/filter.go:118-121 | filtering a valid pipeline gives a valid pipeline: dependency-closed, acyclic, field checks passed |
| FilterMeaning.FilteredIsBuildable | pkg/pipeline/filter.go:169-230 | what could be built before filtering can be built after it |
| FilterMeaning.WindowEmptyMeansDisconnected | pkg/pipeline/filter.go:152-158 | with two job targets the result is empty exactly if stop-after does not reach start-at, over the edges of all jobs, through its dependencies |
| FilterMeaning.FilteringKeepsMeaning | pkg/pipeline/filter.go:127-230 | every job kept whole is built to the same state as without filtering |
| FilterMeaning.TruncatedJobKeepsInputs | pkg/pipeline/filter.go:222-224 | also the job cut short is built from the same input states as before |
| RunAction.BuildRunnerJobs | cmd/cicada/main.go:595-620 | refuses exactly mismatched or unknown names; otherwise each built name comes with its pipeline dependencies |
| RunAction.RunnerJobsFit | cmd/cicada/main.go:603-618 | jobs handed over in a topological order have unique names, no missing dependency, no cycle, and their index is the pipeline's own graph |
| RunAction.BuildAndIndex | cmd/cicada/main.go:399-428 | a valid pipeline reaches the runner, with its own graph, a DAG, exactly if every job can be built |
| RunAction.Prepare | cmd/cicada/main.go:390-428 | filter, build, hand over: refused by the filter exactly if the flags select nothing or an empty step window; otherwise it starts if every job can be built, and is never refused for its dependencies, neither by the builder nor at run time |
| RunAction.PreparedPipelinesFinish | internal/runner/runner.go:139-196 | every run of a prepared pipeline that cannot go on has ended cleanly, and a nil error means every job was solved |
| Include.CheckParams | pkg/pipeline/params.go:7-27 | accepts exactly if no parameter is defined twice, every required one is provided and every provided one declared |
| Include.ResolveParams | pkg/pipeline/params.go:31-44 | accepts exactly the same and returns what `ResolvedExactly` describes |
| Include.ResolvedExactly | pkg/pipeline/params.go:31-44 | the declared parameters and no others have a value, the provided one where there is one, the default otherwise |
| Include.FragmentCarriesParams | pkg/parser/include.go:371-395 | a resolved fragment has the jobs of its file with every text filled in: literal text stays, placeholders of parameters become their values; nothing but texts changes |
| Include.ItemsInOrder | pkg/parser/include.go:202-241 | the jobs of a node list are those of its nodes, one after the other |
| Include.NodeAlone | pkg/parser/include.go:105-116 | a node brings its own job, which must not repeat a name, or the jobs of the file it includes with the include's strategy |
| Include.ResolvableChains | pkg/parser/include.go:37-50 | along every chain of includes from a file that resolves no file comes twice, none is an ancestor, all exist |
| Include.ResolvableIsAcyclic | pkg/parser/include.go:301-338 | from a file that resolves no include cycle can be reached |
| Include.FewerAncestors | pkg/parser/include.go:301-338 | a successful resolution does not depend on the ancestors it was made under |
| Include.UnreachedAncestors | pkg/parser/include.go:310-314 | ancestors the file does not lead to change nothing |
| Include.KeysUnambiguousExactly | pkg/parser/include.go:74-83 | for an injective encoding without question marks the keys of a set of paths determine path and parameters exactly if no path is another one followed by a question mark and encoded parameters |
| Include.CollisionGivesWrongFile | pkg/parser/include.go:316-326 | two files, one named like the other with its parameters, share a key although they resolve to different jobs |
| IncludeResolver.CollidingHitIsWrong | pkg/parser/include.go:316-326 | once the first of the two has been resolved, the lookup for the second, which resolves as well, finds the first one's jobs |
| IncludeVisits.VisitsPrefix | pkg/parser/include.go:202-241 | what the nodes up to some point register is a beginning of what all of them register |
| IncludeVisits.VisitsRegister | pkg/parser/include.go:301-338 | resolving a file leaves every include below it registered under its alias, directly or by an earlier resolution |
| IncludeResolver.IncludeState.Push | pkg/parser/include.go:37-50 | cycle error exactly on an ancestor, depth error exactly at 64 live includes, otherwise stack and set grow together; nothing changes on error |
| IncludeResolver.IncludeState.Pop | pkg/parser/include.go:53-57 | stack and set shrink together |
| IncludeResolver.IncludeState.RegisterAlias | pkg/parser/include.go:61-70 | fails exactly on a known alias, leaving the table as it was |
| IncludeResolver.GroupCollector.AddJob | pkg/parser/include.go:105-107 | appends one job to what was collected |
| IncludeResolver.GroupCollector.AddInclude | pkg/parser/include.go:109-116 | appends the included jobs with their conflict strategy, after everything before |
| IncludeResolver.GroupCollector.MergeAll | pkg/parser/include.go:128-131 | merging the groups is merging the jobs in document order; group boundaries leave no trace |
| IncludeResolver.CacheHitIsResolution | pkg/parser/include.go:316-326 | if the keys of the file set are unambiguous a hit is what uncached resolution gives |
| IncludeResolver.CycleFound | pkg/parser/include.go:38-42 | a circular-include error names a file on a real cycle of includes, and that file does not resolve |
| IncludeResolver.NestedResolves | pkg/parser/include.go:328-337 | a nested include that resolves on its own resolves the same below the file it is in |
| IncludeResolver.Parser.ResolveInclude | pkg/parser/include.go:301-338 | hit or miss, the result is uncached resolution; stack restored, cache still truthful, exactly the registrations of the visit added; a duplicate alias or the depth limit is reported only where the visit has one, every other error only if uncached resolution fails or it names a file really reached; terminates |
| IncludeResolver.Parser.ParseIncludedFile | pkg/parser/include.go:344-395 | the jobs of the file are what uncached resolution gives, parameters substituted, the cache entry written is truthful, and registrations and errors are those of the visit |
| IncludeResolver.Parser.CollectNodes | pkg/parser/include.go:202-241 | the node loop collects exactly the uncached items and registers what the visit registers, or returns an error that one of the two shares |
| Entry.ParseEntry | pkg/parser/parser.go:61-95 | succeeds exactly if the entry resolves without cache, the visit registers no alias twice and stays within the depth limit, hence whenever no chain of 65 files is reachable; the jobs are the first of each name, the alias table is that of the visit |
| Entry.ParsedEntryIsAcyclic | pkg/parser/parser.go:70-78 | success excludes include cycles reachable from the entry, even through the entry itself, which is never on the stack |
| Entry.ChainHoldsFile | pkg/parser/include.go:202-241 | includes inside includes, none of which drops a job, bring the whole innermost file into the merged list |
| Entry.ChainAliasStandsFor | pkg/parser/include.go:61-70 | the alias of an include, nested however deep, stands for the terminal jobs of its file, hit or miss |
| Entry.IncludeAliasCoversFile | pkg/parser/parser.go:176-181 | a job that depends on an include, nested or not, that drops no job depends, after alias expansion, on every job of that acyclic file |
| IncludeDepth.LimitBoundsTheStackOnly | pkg/parser/include.go:37-50 | a chain of any length is accepted when its tails are included back to front; from its head alone exactly if it has at most 64 files |
| Merge.MergeJobs | pkg/pipeline/merge.go:16-46 | fails exactly on a collision the strategy does not allow; otherwise keeps the first job of each name |
| Merge.FirstOnesAreUnique | pkg/pipeline/merge.go:16-46 | merged names are unique, none is lost and nothing is invented |
| Merge.ErrorGroupsAreKept | pkg/pipeline/merge.go:28-38 | without a conflict no job of an error group is dropped |
| MergeOrder.MergedInOrder | pkg/pipeline/merge.go:25-44 | the merged list is exactly the jobs whose name did not come before, in document order |
| MergeOrder.GroupsInOrder | pkg/pipeline/merge.go:25-27 | document order is group after group, each in its own order with its own strategy |
| Merge.TerminalJobs | pkg/pipeline/merge.go:50-64 | returns the names of the jobs no job of the list depends on, in order |
| Merge.TerminalMembers | pkg/pipeline/merge.go:50-64 | a name is terminal exactly if it is a job's and no job lists it as a dependency |
| MergeOrder.TerminalsInOrder | pkg/pipeline/merge.go:58-63 | the terminal names come in the order of the jobs |
| Merge.ClimbToTerminal | pkg/pipeline/merge.go:48-64 | in an acyclic file some terminal job reaches every job |
| Merge.ExpandDeps | pkg/pipeline/merge.go:105-121 | aliases become their terminals, first occurrences only |
| Merge.DedupKeepsMembers | pkg/pipeline/merge.go:111-118 | removing duplicates loses no name and leaves none twice |
| MergeOrder.DedupInOrder | pkg/pipeline/merge.go:111-118 | what is left are exactly the first occurrences, in order |
| MergeOrder.ExpansionsInOrder | pkg/pipeline/merge.go:105-121 | dependencies are expanded one after the other |
| MergeOrder.DependencyStandsFor | pkg/pipeline/merge.go:108-111 | an alias stands for its terminals in order, any other name and an alias without terminals for itself |
| Merge.ExpandAliases | pkg/pipeline/merge.go:70-101 | refuses exactly an alias that names a job it does not stand for; otherwise rewrites dependencies only |
| MergeOrder.ExpandedDependencies | pkg/pipeline/merge.go:92-121 | a job then depends on exactly what its dependencies stood for, nothing twice |
| Merge.AliasCoversFile | pkg/pipeline/merge.go:48-121 | a job that depended on an alias depends transitively on every job of the file behind it |
| Merge.AliasOrdersFile | pkg/pipeline/merge.go:48-121 | so every topological order puts all of that file first |
| Merge.AliasCoversExactly | pkg/pipeline/merge.go:16-121 | in a graph without cycles a job that lists the alias depends on the whole file exactly if each non-terminal job of it is listed by a job named in the file or by one outside that the job reaches, all read off the merged jobs and the alias table |
| Merge.IsolatedAliasCoversExactly | pkg/pipeline/merge.go:16-121 | if only jobs named in the file list its inner jobs, exactly if each of these is listed inside |
| Merge.ExpandedEdge | pkg/pipeline/merge.go:70-121 | the result has an edge exactly if some merged job of that name has a dependency that stands for the other |
| Merge.ListedAliasCovers | pkg/pipeline/merge.go:16-121 | the listing inside the file suffices in any graph without cycles |
| Merge.HeldIsListed | pkg/pipeline/merge.go:16-121 | a file merged in whole meets the condition |
| Merge.SkippedJobBreaksCoverage | pkg/pipeline/merge.go:28-38 | a concrete pipeline in which a skipped job makes the alias miss a job of the file |
| Merge.DroppedJobMayStayCovered | pkg/pipeline/merge.go:28-38 | a concrete pipeline in which a job is dropped and the alias still covers the file |
| Substitute.SubstituteVars | pkg/pipeline/expand.go:258-267 | the result is a single pass over the pairs in some order, and for prefix-free placeholders that of ascending key order, whatever order the map yields |
| Substitute.OrderMattersOnlyWithPrefixes | pkg/pipeline/expand.go:258-267 | all orders of the pairs agree on all texts and values exactly if no placeholder starts another |
| Substitute.BraceFreeKeysArePrefixFree | pkg/pipeline/expand.go:262-265 | keys without a closing brace have such placeholders |
| Substitute.PlaceholderBecomesValue | pkg/pipeline/expand.go:256-267 | a placeholder becomes its value, which is not scanned again |
| Substitute.PlainTextStays | pkg/pipeline/expand.go:266-266 | text without a dollar sign stays as it is in front of anything |
| Substitute.TemplateIsFilled | pkg/pipeline/expand.go:256-267 | a text of literal pieces and placeholders becomes the pieces and the values, in order |
| Substitute.UntouchedText | pkg/pipeline/expand.go:256-267 | a text without a dollar sign is not changed at all |
| Substitute.EveryTextIsSubstituted | pkg/pipeline/params.go:56-139 | substituting in a job is substituting in each of its texts, one by one, and in all of them |
| Substitute.RestIsKept | pkg/pipeline/params.go:56-139 | names, flags, keys and the number of everything stay |
| Substitute.SubstitutionKeepsGraph | pkg/pipeline/params.go:47-77 | substitution touches neither names nor dependencies nor, one by one, the jobs artifacts come from |
| Matrix.CountCombinations | pkg/pipeline/pipeline.go:120-128 | the guard fails exactly if some prefix product exceeds a 64-bit integer, so the product never wraps |
| Matrix.Combinations | pkg/pipeline/pipeline.go:116-145 | one entry per number below the product, entry i being i decoded in mixed radix; empty without dimensions |
| Matrix.CombinationsAreTheProduct | pkg/pipeline/pipeline.go:113-145 | for different names and values the result holds every combination exactly once |
| Matrix.ValidateMatrix | pkg/pipeline/expand.go:154-181 | accepts exactly the matrices with valid different names, no empty dimension and at most 10000 combinations; the error is that of the first faulty dimension |
| Matrix.ValidMatrixNeverOverflows | pkg/pipeline/expand.go:170-177 | after validation the overflow guard never fires |
| ExpandedNames.ExpandedName | pkg/pipeline/expand.go:218-254 | reads an existing suffix, merges and prints in sorted order |
| ExpandedNames.EntriesInOrder | pkg/pipeline/expand.go:237-253 | the entries of a name stand in the order of the keys with a comma between any two |
| Strings.LeqExactly | pkg/pipeline/expand.go:241-241 | the order of the keys: the first difference decides, and a prefix comes first |
| ExpandedNames.RoundTrip | pkg/pipeline/expand.go:218-254 | reading a printed name back gives name and dimensions exactly if the name has no bracket and no key or value has a separator |
| ExpandedNames.PrintInjective | pkg/pipeline/expand.go:237-253 | different variants have different names |
| ExpandedNames.ExpansionComposes | pkg/pipeline/expand.go:215-234 | expanding twice is expanding once with the combined dimensions, the later winning |
| ExpandedNames.CommaIsLost | pkg/pipeline/expand.go:226-231 | what follows a comma in a value is lost when the name is expanded again |
| Expand.CorrelateArtifactFroms | pkg/pipeline/expand.go:294-301 | every non-empty source is expanded by the combination, which `ExpandImports` shows to be the replica in the same copy |
| Expand.CheckDimCollisions | pkg/pipeline/expand.go:185-205 | fails exactly if a job's matrix shares a dimension with the pipeline's |
| Expand.NothingSubstituted | pkg/pipeline/expand.go:101-105 | replicating a job with no combination changes nothing |
| Expand.ExpandPipeline | pkg/pipeline/expand.go:34-79 | phase 1: fails exactly on an invalid or colliding matrix, with the first fault; otherwise one copy of the pipeline per combination |
| Expand.RewriteArtifactFroms | pkg/pipeline/expand.go:308-317 | a source is rewritten only if it has a single variant |
| Expand.ExpandJobs | pkg/pipeline/expand.go:85-145 | phase 2: fails exactly on an invalid job matrix, with the first fault of the first such job; otherwise all variants with dependencies and sources rewritten |
| Expand.Expand | pkg/pipeline/expand.go:14-30 | both phases; a pipeline without a matrix is returned unchanged |
| ExpandGraph.MatrixSubstitutionIsDeterministic | pkg/pipeline/expand.go:101-101 | substituting a combination of a valid matrix gives the same in every map order |
| ExpandGraph.CopiesAreIsomorphic | pkg/pipeline/expand.go:59-66 | phase 1, if names stay unique: the copies have the pipeline's edges, and no edge leads from one copy to another unless a dependency names the replica itself |
| ExpandGraph.CopiesKeepGraph | pkg/pipeline/expand.go:34-79 | the copies are closed exactly if every dependency, expanded, names a replica; every cycle stays, and none is new if every dependency named a job |
| ExpandGraph.OwnerIsUnique | pkg/pipeline/expand.go:106-127 | if names stay unique a variant's name belongs to one job |
| ExpandGraph.DependsOnEveryVariant | pkg/pipeline/expand.go:131-135 | phase 2, if names stay unique: a variant depends on another exactly if its job depended on the other's job or names that variant |
| ExpandGraph.BlownKeepsGraph | pkg/pipeline/expand.go:85-145 | phase 2 leaves nothing missing exactly if every dependency names a job or a variant, and has a cycle exactly if the jobs have one when a dependency on a variant counts as one on its job |
| ExpandGraph.ArtifactFollowsSingleVariant | pkg/pipeline/expand.go:303-317 | an imported file's job is still a dependency exactly if it has a single variant or its old name is now a variant's name of a dependency |
| ExpandImports.ImportsFromSameCopy | pkg/pipeline/expand.go:59-74 | phase 1: a file from a job, on a job or a step, comes from the replica of that job in the same copy |
| ExpandImports.ReplicaKeepsImports | pkg/pipeline/expand.go:59-74 | phase 1: a job that names all its sources and imports only from its dependencies still does in every copy |
| ExpandImports.VariantImports | pkg/pipeline/expand.go:129-138 | phase 2, with unique names: a variant of a job that names its sources imports only from its dependencies exactly if each source has a single variant, is still a variant's name of a dependency, or names no job |
| ExpandImports.ImportsSurviveExpansion | pkg/pipeline/expand.go:14-30 | both phases, if names stay unique: a job that names all its sources and imports only from its dependencies does so in the result, as each variant in each copy, exactly if every source survives phase 2 in that copy |
| ExpandImports.SingleSourcesSurvive | pkg/pipeline/expand.go:303-317 | if every source has a single variant in the copy, the files come from these variants and the job passes the check |
| ExpandGraph.PhaseTwoIsBlown | pkg/pipeline/expand.go:86-88 | skipping phase 2 when no job has a matrix gives what running it would |
| ExpandGraph.ExpandKeepsGraph | pkg/pipeline/expand.go:14-30 | after both phases nothing is missing exactly if every dependency names a job or a variant, and there is a cycle exactly if there is one among the jobs of the copies; if every dependency names a job as written, nothing is missing and no cycle is made or broken |
| ExpandGraph.ExpandedEdges | pkg/pipeline/expand.go:11-30 | the edges after both phases, if names stay unique: same copy and the original jobs depended on each other, or a dependency names the job of that copy or that variant by its expanded name |
| ExpandGraph.ExpandedJobs | pkg/pipeline/expand.go:11-30 | the jobs after both phases are exactly the variants of the jobs before |
| ExpandContent.ExpandedJobIsFilled | pkg/pipeline/expand.go:14-145 | every job of the result is its original with the combination of its copy and then its own put into every text; only name, dependencies, sources and cache ids differ otherwise |
| ExpandContent.MatricesAreSpent | pkg/pipeline/expand.go:50-114 | after both phases neither the pipeline nor a job has a matrix |
| ExpandNames.VariantOrigin | pkg/pipeline/expand.go:106-127 | with readable names a variant's name can be led back to its job by parsing it |
| ExpandNames.ExpandableStaysUnique | pkg/pipeline/expand.go:14-30 | bracket-free job names and dimensions without separators keep names unique through both phases |
| ExpandNames.ArtifactNeedsSingleVariant | pkg/pipeline/expand.go:303-317 | with such names an imported file's job is still a dependency exactly if it has a single variant |
| ExpandNames.CacheIdsDiffer | pkg/pipeline/expand.go:269-273 | whatever the two ids were, namespaced with different variant names of one base they differ, if keys and values have no opening bracket |
| ExpandNames.CacheIdsCollideExactly | pkg/pipeline/expand.go:269-273 | two names can give the same cache id exactly if one, after a separator, ends with the other |
| ExpandNames.ExpandedNamesApart | pkg/pipeline/expand.go:218-254 | different variant names of one job do not, if keys and values have no opening bracket |
| ExpandNames.VariantCachesDiffer | pkg/pipeline/expand.go:112-123 | two variants of a job whose names are apart in that sense never share a cache, on the job or on any step |
| ExpandNames.ReplicaCachesDiffer | pkg/pipeline/expand.go:64-74 | nor do the replicas of a job in two copies of the pipeline |
| Finalize.ApplyDefaults | pkg/pipeline/pipeline.go:514-534 | defaults change neither names nor dependencies |
| Finalize.DefaultsFillGaps | pkg/pipeline/pipeline.go:514-550 | a default replaces nothing the job sets: image and workdir fill gaps, mounts come first, only variables the job does not set are added, and no key comes twice if none did |
| Finalize.OwnVariablesComeLast | pkg/pipeline/pipeline.go:536-550 | the job's own variables come last, in their order |
| Finalize.ExpandAll | pkg/parser/parser.go:176-189 | everything before validation succeeds exactly if no alias collides and both phases do, with the error of the first that fails |
| Finalize.FinalizePipeline | pkg/parser/parser.go:176-196 | succeeds exactly if no alias collides, both phases succeed and the expanded pipeline is valid, and returns it with a topological order; otherwise the error is that of the first pass that fails and true of what it was given; if the pipeline was closed and acyclic before expansion, or well connected by names of variants, and names stay unique the error is never about duplicate names, missing dependencies or cycles |
| Finalize.ValidAfterExpansion | pkg/parser/parser.go:176-196 | if names stay unique the expanded pipeline is valid exactly if there was a job, every dependency names a job or a variant, no job of a copy waits for itself, and all fields and the environment are in order |
| Finalize.DependencySurvivesExpansion | pkg/pipeline/expand.go:14-30 | a transitive dependency holds, within one copy, between any two variants of the two jobs |
| Finalize.CoverageSurvivesExpansion | pkg/parser/parser.go:176-187 | a variant of a job that depended on an alias depends on every variant, in its copy, of every job of the file behind it |
| Finalize.AliasedFileIsSolvedFirst | internal/runner/runner.go:257-285 | while such a variant is inside Solve all of those have been solved, in every run and at every moment |
| Display.StepKeepsInv | internal/progress/tui.go:56-114 | every step of callers, consumers, monitor, producers and Seal keeps the invariant |
| Display.MessagesAreOrdered | internal/progress/tui.go:74-97 | each attachment's messages are added, a prefix of its statuses in order, done; done only after the channel is drained and closed; all statuses unless cancelled |
| Display.AllDoneComesLast | internal/progress/tui.go:64-73 | all-done is sent at most once, nothing follows it, and every attachment has reported done before |
| Display.NeverStuck | internal/progress/tui.go:56-114 | no reachable state is stuck before everything is over, even without any Attach and under cancellation |
| Display.StepDescends | internal/progress/tui.go:56-114 | every step lowers one measure |
| Display.EveryRunEnds | internal/progress/tui.go:99-114 | every run is finite; in one where only a cancellation is left, all-done went out exactly once, and every attachment drained its closed channel and shows added, its statuses and done, all statuses unless cancelled |

## Left out

- KDL parsing, argument extraction, field dispatch and file lookup: files are a finite map from absolute path to already parsed nodes; a file that does not parse, is ambiguous or holds several fragments is a `BrokenFile` with one error.
- Error texts and positions; errors are named values. A duplicate field or alias property inside one node is a parse error and not modelled.
- Url encoding of parameters: a parameter, assumed injective and free of question marks where unambiguous keys are at stake (application/x-www-form-urlencoded in the WHATWG URL Standard, section 5, percent-encodes them).
- Regular expressions, white-space trimming, platform parsing and export definitions: parameters (`Rules`, `BuildRules`), so results hold for any of them.
- CollectImages, no-cache filters and image-publish grouping: list functions without influence on the graph.
- Env layering, mounts and command options in `buildJob`: they are part of a job's content in the built tree; what LLB makes of them is not modelled.
- BuildKit and the solver: Solve is a step that succeeds or fails; that a Solve returns is assumed, as is that a status channel is closed once its producer has sent everything.
- Exports and publishes of a run: one step each, which succeeds or fails; their inner concurrency is not modelled.
- Run with no jobs, a nil solver or a nil display: early returns.
- bubbletea: a Send is delivered at once and in order; rendering and the program's own errors are not modelled. Attach and Seal before Start, and repeated calls of Seal, do nothing.
- Display.EveryRunEnds: covers runs in which every Attach has returned before Seal begins and none follows, which is what the comment at internal/progress/tui.go:61-63 asks of callers; for the run command `Scheduler.NothingRunsAfterReturn` shows it, image pulling (cmd/cicada/main.go:676-680) is not modelled.
- Machine integers: lengths and indices are unbounded, except in `Combinations`, whose overflow guard is modelled at 64 bits.
- Builder.BuildJob: the built state of a job is the tree of its content and input states.
- IncludeResolver.Parser.ResolveInclude: parameters are substituted in ascending key order; by `ReplaceIgnoresOrder` this is what any map order gives when no parameter name has a closing brace.
- Expand.Expand: matrix values are substituted in ascending key order as well; dimension names that pass validation have no closing brace.
- ExpandGraph.ExpandKeepsGraph: that names stay unique is assumed; `ExpandNames.ExpandableStaysUnique` shows it for bracket-free names and dimension values free of commas, which nothing in the code checks.
- ExpandImports.ImportsSurviveExpansion: the same assumption on names; an artifact without a source is left to `Validate`, which refuses it (`FieldChecks.JobErrorExactly`).
- ExpandNames.VariantOrigin: only for names and dimensions without separators, as a suffix with separators cannot be read back; `ExpandGraph.OwnerIsUnique` says for all names that a variant belongs to one job.
- ExpandNames.ArtifactNeedsSingleVariant: the same restriction; `ExpandGraph.ArtifactFollowsSingleVariant` is the exact statement for all names.
- Merge.AliasCoversFile: for an acyclic file with no job dropped; `Merge.AliasCoversExactly` has the other case. That the terminals are the fewest possible is not claimed, and is false when a file itself depends on an alias.
- Clone and aliasing of slices: jobs are values, so that copies are deep is taken for granted.
