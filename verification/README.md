# Verified models of the repository's algorithms

This project models, in Dafny, the self-contained algorithms and state machines of
the repository and proves what they promise. `dafny verify dfyconfig.toml` checks
everything. One module per component:

- `WeightedRoundRobin`, `LoadBalancing`: the load balancer of the resilience service.
  The weighted selection loop ends for every list of integer weights and every
  leftover counter, and its selections are exactly fair.
- `CircuitBreaking`: the three-state circuit breaker over arbitrary event sequences,
  manual resets and reconfigurations included. The counters are proved to refine a
  reference that keeps no counters and looks back through the history instead.
- `RouteRegistry`, `RouteManaging`: the dynamic-route registry, whose id map and
  method:path index share mutable route objects.
- `RequestLogging`: the bounded request log, its statistics and its paging.
- `GraphWalk`, `GraphWalking`: the worklist over the module graph that selects what
  the type checker is given.
- `LeadingComments`: the scanner of leading comments, against a grammar of script
  heads that covers every text.
- `AmbientModules`: the regex compiled from ambient module names, read back as a
  regex, by tables of its own, and compared with what wildcard names mean.
- `CheckCache`: skipping a check on a cached hash, and reporting without repeats.
- `PrefixedWriting`: the writer that prefixes lines, independent of chunking.
- `GraphContainers`: module-graph update permits as interleaved steps of many tasks.
- `ErrorCauses`: printing cause chains that may be circular.
- `ProviderCopying`: the key and the sort position of a duplicated provider.

`Basics` and `Text` hold the few notions the models share.

State that the source updates in place is a class whose methods are proved against
functions on values; the theorems about runs are about those functions. A body that
the source protects with a lock is one step. Clock readings, random draws, resolver
results and compiler responses are parameters.

## Where the code does less than one would expect

- An update of a dynamic route with a null value or an unknown type, behind edits that
  change the method or path, leaves the index entry under the old key. A new route
  that takes over a used id does the same. `SoundIffNotStranded` and `RunSound` show
  that these are the only ways the index becomes unsound, and `OrderlyRunIsSound` that
  good values and unused ids are enough; `FailedUpdateStrands` is a concrete case.
- Two live routes with the same method and path hide one another, and deleting one
  makes the other unreachable, and its own deletion raises (`CollisionHidesRoute`). `RunComplete`
  gives the exact condition under which lookup finds every live route.
- The log endpoint caps a page at 100 entries, so a client that asks for more and
  advances by its own limit misses entries; `PagesReadEverything` says exactly when.
- `.*` does not cross a newline, so the ambient-module regex means plain wildcard
  matching only for specifiers without newlines (`RegexMeansNames`); the meaning for
  all texts is `RegexMeansNamesInLine`.

## Model

| member | source | states |
|---|---|---|
| WeightedRoundRobin.Select | pyAPI/main.py:645-654 | a selection ends for any non-empty integer weights and any leftover counters, at an in-range server whose weight reaches the current weight |
| WeightedRoundRobin.SelectIsFirst | pyAPI/main.py:645-654 | from any weights and leftover counters a selection stops at the first iteration that lands on a server whose weight is at least the current weight; at every earlier one the weight is too small |
| WeightedRoundRobin.FirstIsSelect | pyAPI/main.py:645-654 | any iteration with that property is where the selection stops |
| WeightedRoundRobin.AdvanceWraps | pyAPI/main.py:646-652 | an iteration moves to the next server, and after the last to the first with the weight lowered by one, or at the largest weight when that leaves nothing |
| WeightedRoundRobin.SelectionIsBounded | pyAPI/main.py:645-654 | the iterations of one selection are at most the list length times one plus the rounds needed to bring the current weight down |
| WeightedRoundRobin.RankDecreases | pyAPI/main.py:646-654 | every iteration that does not return lowers a rank, which is why the loop ends |
| WeightedRoundRobin.SelectionsAreHits | pyAPI/main.py:645-654 | consecutive selections are exactly the hits met along consecutive iterations |
| WeightedRoundRobin.CycleIsFair | pyAPI/main.py:645-654 | one whole cycle of iterations, started anywhere in it, hits server i exactly w[i] times |
| WeightedRoundRobin.WindowIsFair | pyAPI/main.py:637-654 | once the current weight is in 1..max, the next Sum(w) selections choose server i exactly w[i] times |
| WeightedRoundRobin.WindowsAreFair | pyAPI/main.py:637-654 | k such windows choose server i exactly k * w[i] times |
| WeightedRoundRobin.FairFromReset | pyAPI/main.py:1610-1612 | after a reset, n - 1 + k * Sum(w) selections choose server i exactly k * w[i] times, plus once if i > 0 |
| WeightedRoundRobin.RoundRobinIsFair | pyAPI/main.py:619-625 | from any leftover index, n plain round-robin choices take each of n servers once |
| LoadBalancing.CandidatesInOrder | pyAPI/main.py:616-617 | the candidates are the healthy servers in registration order, paired with their current weights |
| LoadBalancing.HealthyInOrder | pyAPI/main.py:616-617 | a registered server is, when healthy, right between the healthy ones before it and those after it, so order and multiplicity are kept |
| LoadBalancing.LoadBalancer.PickRoundRobin | pyAPI/main.py:619-625 | the server at the shared index modulo the length, and the index advanced by one |
| LoadBalancing.LoadBalancer.PickRandom | pyAPI/main.py:627-630 | some candidate, or none exactly when there is none |
| LoadBalancing.LoadBalancer.PickLeastConnections | pyAPI/main.py:632-635 | the first candidate with the fewest active connections |
| LoadBalancing.LoadBalancer.AdvanceCounters | pyAPI/main.py:647-651 | one iteration's update of index and current weight |
| LoadBalancing.LoadBalancer.PickWeighted | pyAPI/main.py:637-654 | none for no servers, plain round robin when the weights sum to zero, otherwise the server of the first iteration whose weight is at least the current weight |
| LoadBalancing.LoadBalancer.SelectServer | pyAPI/main.py:656-668 | none exactly when no server is healthy; otherwise a healthy registered server: by turns, the first with the fewest connections, or the weighted selection, by turns when the weights add up to zero; and which counters move |
| LoadBalancing.LoadBalancer.SelectAndCount | pyAPI/main.py:1497-1511 | one selection, as `SelectServer` says for each strategy, counted on the chosen server and on no other |
| LoadBalancing.LoadBalancer.SelectBatch | pyAPI/main.py:1515-1543 | a batch rejects counts outside 1..100; by each strategy its picks are those of as many selections: the weighted ones the fairness theorems speak of, consecutive turns, or the first with the fewest connections; each server's request total grows by its number of picks |
| LoadBalancing.LoadBalancer.SetWeight | pyAPI/main.py:1572-1592 | changes the weight of the first server with the id, only to 1..10, so positive weights stay positive |
| LoadBalancing.LoadBalancer.Reset | pyAPI/main.py:1603-1612 | counters back to zero and all per-server statistics cleared |
| LoadBalancing.PositiveWeightsAreUsable | pyAPI/main.py:1579-1592 | weights the endpoint allows meet the premises of the fairness theorems |
| LoadBalancing.PicksCountIndices | pyAPI/main.py:1528-1539 | a server is picked as often as its index is selected |
| LoadBalancing.BatchAfterResetIsFair | pyAPI/main.py:1528-1539 | after a reset, a batch of n - 1 + k * Sum(w) selections picks server i exactly k * w[i] times, plus once if i > 0 |
| CircuitBreaking.CircuitBreaker.constructor | pyAPI/main.py:498-505 | a new breaker is closed with zero counts |
| CircuitBreaking.CircuitBreaker.CanExecute | pyAPI/main.py:507-515 | admits unless open and still cooling down; an admission while open half-opens |
| CircuitBreaking.CircuitBreaker.OnSuccess | pyAPI/main.py:517-526 | the success step |
| CircuitBreaking.CircuitBreaker.OnFailure | pyAPI/main.py:528-536 | the failure step |
| CircuitBreaking.CircuitBreaker.ResetBreaker | pyAPI/main.py:1437-1441 | the manual reset, which keeps the last failure time |
| CircuitBreaking.CircuitBreaker.Reconfigure | pyAPI/main.py:1468-1471 | changes the configuration and nothing else |
| CircuitBreaking.CountersRefineHistory | pyAPI/main.py:507-536 | in every run under a monotone clock the counting breaker is in the state that its history alone prescribes |
| CircuitBreaking.AdmittedOnlyAfterCoolDown | pyAPI/main.py:507-515 | an open breaker admits exactly when more than the timeout has passed since every failure reported so far |
| CircuitBreaking.StaysOpen | pyAPI/main.py:507-536 | only an admitted call or a manual reset ends an opening |
| CircuitBreaking.FirstAdmissionAfterOpening | pyAPI/main.py:507-536 | the first call admitted after an opening comes more than the timeout after every failure reported before it, late ones included |
| CircuitBreaking.OpensAtThreshold | pyAPI/main.py:528-533 | a closed breaker opens exactly at the failure completing the threshold since the latest success or reset |
| CircuitBreaking.ProbeWindow | pyAPI/main.py:507-536 | while half-open, no failure or reset since the admitted probe, and fewer successes than the threshold |
| CircuitBreaking.ClosesAtThreshold | pyAPI/main.py:517-526 | a half-open breaker closes exactly at the success completing the threshold since the probe |
| CircuitBreaking.NoSuccessCountOutsideHalfOpen | pyAPI/main.py:507-536 | the success count is zero outside the half-open state in every run |
| RouteRegistry.NormalPathSplits | pyAPI/main.py:384-386 | a path with the prefix stays; any other loses exactly its leading slashes and gets the prefix |
| RouteRegistry.UpperByAlphabet | pyAPI/main.py:388-391 | upper-casing maps the lower alphabet onto the upper one and leaves all else |
| RouteRegistry.EditsOutcome | pyAPI/main.py:420-430 | an update goes through exactly when no edit has a null value or an unknown type; in any case the route ends with the path, method and type asked for last before the first such edit |
| RouteRegistry.SoundIffNotStranded | pyAPI/main.py:374-451 | an operation, successful or raising, keeps every index entry pointing to a live route filed under its own key exactly when it does not strand an entry |
| RouteRegistry.RunSound | pyAPI/main.py:374-480 | the index is sound in every state of a run, collisions and missing keys included, exactly when no event strands an entry: no update with a bad edit changes the key before it, and no new route takes over the id of an indexed route with another key |
| RouteRegistry.OrderlyRunIsSound | pyAPI/main.py:374-480 | a run whose edits are all good and whose created ids are unused keeps the index sound in every state, collisions and missing keys included |
| RouteRegistry.RunComplete | pyAPI/main.py:374-480 | the index is sound and finds every live route throughout a run exactly when keys never collide and no event strands an entry |
| RouteRegistry.NoMissingEntry | pyAPI/main.py:432-451 | while lookup finds every live route, delete never raises and update raises exactly when some edit has a null value or an unknown type |
| RouteRegistry.RunNormal | pyAPI/main.py:384-430 | in every run every stored path starts with the prefix and every stored method is upper case |
| RouteRegistry.LookupFinds | pyAPI/main.py:457-460 | looking up a live route by its method, in any case, and path returns it |
| RouteRegistry.LookupIsExact | pyAPI/main.py:457-460 | in a sound index, whatever a lookup returns is a live route that now has the upper-cased method and the path; in a complete one it returns nothing exactly when no live route has them |
| RouteRegistry.UpdateEffect | pyAPI/main.py:412-439 | in every state: when an update raises, what the route becomes, and that the index moves one entry or stays as it is |
| RouteRegistry.DeleteEffect | pyAPI/main.py:441-451 | in every state: a delete forgets the id, removes the entry under the route's key and no other, and raises exactly when there is none |
| RouteRegistry.UsageCountsUses | pyAPI/main.py:466-469 | in every run that does not delete or replace a route, its usage count grows by the number of its uses |
| RouteRegistry.LastToggleDecides | pyAPI/main.py:471-478 | and it is active as the last toggle of it says, or as it was |
| RouteRegistry.CollisionHidesRoute | pyAPI/main.py:374-451 | a concrete run in which a collision leaves a live route unfindable and its deletion raising |
| RouteRegistry.FailedUpdateStrands | pyAPI/main.py:412-439 | a concrete update that raises and leaves the index unsound |
| RouteManaging.DynamicRouteManager.constructor | pyAPI/main.py:316-372 | exactly the four default routes are registered, and id map and index agree |
| RouteManaging.DynamicRouteManager.AddNew | pyAPI/main.py:374-377 | files a new route object under its id and its key |
| RouteManaging.DynamicRouteManager.CreateRoute | pyAPI/main.py:379-410 | is the create event; a bad route type changes nothing |
| RouteManaging.DynamicRouteManager.AssignAll | pyAPI/main.py:420-430 | applies the edits in order up to the first that raises |
| RouteManaging.DynamicRouteManager.UpdateRoute | pyAPI/main.py:412-439 | is the update event, outcome included, on shared route objects |
| RouteManaging.DynamicRouteManager.DeleteRoute | pyAPI/main.py:441-451 | is the delete event, outcome included |
| RouteManaging.DynamicRouteManager.ToggleRoute | pyAPI/main.py:471-478 | is the toggle event |
| RouteManaging.DynamicRouteManager.IncrementUsage | pyAPI/main.py:466-469 | is the use event |
| RouteManaging.DynamicRouteManager.GetRouteByPath | pyAPI/main.py:457-460 | in a sound index returns only a live route with exactly that method and path, and in a complete one nothing only when there is none |
| RequestLogging.RequestLogger.AddLog | pyAPI/main.py:84-100 | keeps the log equal to the last max_logs entries since the last clear and the statistics equal to those of all of them |
| RequestLogging.RequestLogger.RecordStats | pyAPI/main.py:90-100 | the statistics part of adding an entry |
| RequestLogging.RequestLogger.ClearLogs | pyAPI/main.py:122-133 | empties log and statistics |
| RequestLogging.RequestLogger.GetLogs | pyAPI/main.py:102-104 | entry i of a page is the (offset + i)-th newest stored entry, for as many as the limit and the store allow; negative bounds count from the oldest end, bounds beyond either end stop there |
| RequestLogging.DescribesExtended | pyAPI/main.py:84-100 | recording one more entry keeps the statistics describing the history |
| RequestLogging.Conservation | pyAPI/main.py:84-100 | total = successes + failures = the sum of each distribution, and each distribution counts exactly what occurred |
| RequestLogging.SuccessesByStatus | pyAPI/main.py:90-94 | the successful requests are those with a status from 200 to 399, the failed ones all others |
| RequestLogging.PagesReadEverything | pyAPI/main.py:1785-1788 | consecutive pages return every stored entry once, newest first, exactly when the limit is at most 100 or at most 100 entries are stored |
| GraphWalk.PopKeepsInv | deno/cli/type_checker.rs:899-1002 | every iteration of the queue loop keeps the whole invariant of the walk |
| GraphWalk.PopDecreases | deno/cli/type_checker.rs:899-1002 | every iteration visits a new module or shortens the queue, so the walk ends |
| GraphWalk.WalkVisitsReachable | deno/cli/type_checker.rs:899-1002 | a finished walk has visited, each once, exactly the modules that `LeadsTo` reaches from the starts through modules no npm import consumed |
| GraphWalk.EdgeMeans | deno/cli/type_checker.rs:941-1000 | what the walk follows, over the fields of the graph: type and code of the dependencies of scripts and wasm modules and the types of scripts, through redirects, except from declaration files whose options skip library checks |
| GraphWalk.WalkHandsOver | deno/cli/type_checker.rs:899-1093 | what a finished walk hands over, over the fields of the graph: exactly the reachable checkable modules as roots, names and texts of reachable modules in the hash, the errors of their static dependencies, the node flag, and one report for each unresolved npm import |
| GraphWalk.WalkDiagnosesNeeded | deno/cli/type_checker.rs:899-924 | a diagnosable specifier is reported once if it is a start or has a static edge from a reachable module, and not at all otherwise |
| GraphWalk.WalksAgree | deno/cli/type_checker.rs:899-1002 | two finished walks from the same starts agree on visited modules, check roots, missing-module and resolution diagnostics and the node flag, in whatever order they ran |
| GraphWalk.SeenIsMet | deno/cli/type_checker.rs:842-1002 | a finished walk has marked exactly what is consumed, needed statically or reachable |
| GraphWalk.PopDelivers | deno/cli/type_checker.rs:925-1093 | hash input, roots, resolution diagnostics and the node flag stay those of the visited modules |
| GraphWalk.QueuedAllFacts | deno/cli/type_checker.rs:1095-1108 | static targets are queued exactly when new, dynamic ones unless already marked |
| GraphWalking.GraphWalker.constructor | deno/cli/type_checker.rs:803-840 | a new walker satisfies the invariant with nothing started |
| GraphWalking.GraphWalker.HandleSpecifier | deno/cli/type_checker.rs:1095-1108 | queues and marks one target |
| GraphWalking.GraphWalker.HandleDependency | deno/cli/type_checker.rs:968-996 | walks type and code resolution and surfaces the one error that counts |
| GraphWalking.GraphWalker.HandleTargets | deno/cli/type_checker.rs:958-1000 | follows a module's targets unless it is a skipped declaration |
| GraphWalking.GraphWalker.Expand | deno/cli/type_checker.rs:925-1000 | is the visit step |
| GraphWalking.GraphWalker.PopPending | deno/cli/type_checker.rs:900-924 | is one iteration of the loop |
| GraphWalking.GraphWalker.ResolvePending | deno/cli/type_checker.rs:899-1002 | the loop ends with an empty queue and keeps the invariant |
| GraphWalking.GraphWalker.AddRoot | deno/cli/type_checker.rs:869-876 | walks from one more start |
| GraphWalking.GraphWalker.AddConfigImport | deno/cli/type_checker.rs:842-867 | walks from a non-npm import; marks an npm import it has not seen as consumed, adding its file or a report |
| GraphWalking.GraphWalker.Walk | deno/cli/type_checker.rs:560-566 | a whole walk visits exactly the reachable modules once, reports exactly the needed missing modules once, consumes exactly the npm imports that the imports before them neither consumed nor needed statically nor reached, and hands over what `WalkHandsOver` says |
| LeadingComments.GetLeadingComments | deno/cli/type_checker.rs:1167-1223 | the scanner ends on every text and computes `Scan` |
| LeadingComments.WhitespaceIsUnicode | deno/cli/type_checker.rs:1183-1188 | the skipped characters are those with the Unicode property White_Space |
| LeadingComments.ReadLine | deno/cli/type_checker.rs:1196-1206 | reads a line comment up to its newline |
| LeadingComments.ReadBlock | deno/cli/type_checker.rs:1207-1218 | reads a block comment up to its end mark |
| LeadingComments.ScanInvertsPrint | deno/cli/type_checker.rs:1167-1223 | scanning any printed head gives back exactly its comment texts |
| LeadingComments.Parse | deno/cli/type_checker.rs:1167-1223 | every text is the print of a valid head |
| LeadingComments.ScanMeansGrammar | deno/cli/type_checker.rs:1167-1223 | on every text the scan equals the comments of every head that prints as it |
| Text.TrimMatchesSplits | deno/cli/type_checker.rs:519 | trimming a name takes off all quotes at both ends and nothing else |
| AmbientModules.ToRegexString | deno/cli/type_checker.rs:514-529 | builds the regex of a non-empty list of names |
| AmbientModules.EscapedStarsBecomeRuns | deno/cli/type_checker.rs:519-521 | replacing escaped stars after escaping turns exactly the stars of the name into runs |
| AmbientModules.RegexReadsBack | deno/cli/type_checker.rs:514-529 | the string is a well-formed regex whose alternatives are the patterns of the names |
| AmbientModules.RegexMeansNamesInLine | deno/cli/type_checker.rs:658-679 | the regex accepts any text exactly when a trimmed name matches it with stars that stay on one line |
| AmbientModules.RegexMeansNames | deno/cli/type_checker.rs:658-679 | on a newline-free specifier, exactly when a trimmed name matches as a wildcard |
| CheckCache.WaivedByName | deno/cli/type_checker.rs:672-679 | a missing diagnostic is dropped exactly when an ambient name matches its specifier |
| CheckCache.TypeChecker.CheckFolder | deno/cli/type_checker.rs:573-692 | over the request: the cache answers exactly when it may; otherwise the outcome holds each missing diagnostic that counts and matches no ambient name, then each compiler diagnostic that counts, as often as found; the hash is recorded exactly when there is none of either kind |
| CheckCache.AnswerMeaning | deno/cli/type_checker.rs:573-711 | the same for the specification function of an answer |
| CheckCache.WaivedIfDeclared | deno/cli/type_checker.rs:672-679 | for every specifier, waiving is matching an ambient name with stars that stay on one line |
| CheckCache.IncludedInOrder | deno/cli/type_checker.rs:698-711 | leaving out diagnostics that do not count keeps the order of the others |
| CheckCache.UnwaivedInOrder | deno/cli/type_checker.rs:672-679 | so does leaving out waived ones |
| CheckCache.TypeChecker.Next | deno/cli/type_checker.rs:487-510 | checks the next group, then shows only diagnostics whose key is new |
| CheckCache.CacheHoldsRecorded | deno/cli/type_checker.rs:686-692 | the cache holds exactly the hashes of requests whose own full check is clean |
| CheckCache.InvisibleIffConsistent | deno/cli/type_checker.rs:587-600 | the cache never changes an answer exactly when no skippable unclean request shares its hash with an earlier clean one |
| CheckCache.CacheAgreesWithChecking | deno/cli/type_checker.rs:580-600 | if the hash determines whether a request checks clean, every answer equals that of a fresh check, even after waived missing modules |
| CheckCache.ReportIsFaithful | deno/cli/type_checker.rs:491-507 | over all groups exactly the diagnostics without a key and the first of each key are shown, in order; so no key is shown twice and no error disappears |
| PrefixedWriting.PrefixedWriter.Write | deno/cli/task_runner.rs:64-86 | appends to the current segment, keeping writes and buffer a function of the segments |
| PrefixedWriting.PrefixedWriter.Flush | deno/cli/task_runner.rs:88-95 | ends the segment and empties the buffer |
| PrefixedWriting.PrefixedWriter.Perform | deno/cli/task_runner.rs:63-96 | for any writes and flushes, the pieces passed on and the buffer depend only on the text between flushes |
| PrefixedWriting.OutputIsPrefixedInput | deno/cli/task_runner.rs:63-96 | bytes passed on plus buffered are the segments with the prefix at each line start; at a line start exactly when the buffer is empty |
| PrefixedWriting.LinesAreUnique | deno/cli/task_runner.rs:71-78 | whole lines with an open line behind them are the lines of the text they make up |
| PrefixedWriting.LinesMakeUpText | deno/cli/task_runner.rs:71-83 | a text is its lines, each ending at its only newline, and its open line, which has none |
| GraphContainers.GraphContainer.AcquireQueue | deno/cli/graph_container.rs:137-138 | one waiting task becomes the holder |
| GraphContainers.GraphContainer.CopyGraph | deno/cli/graph_container.rs:139-143 | the holder copies the current graph |
| GraphContainers.GraphContainer.MutateCopy | deno/cli/graph_container.rs:161-163 | a mutation touches only the task's own copy |
| GraphContainers.GraphContainer.CommitCopy | deno/cli/graph_container.rs:165-166 | the copy replaces the graph |
| GraphContainers.GraphContainer.ReleaseQueue | deno/cli/graph_container.rs:167-168 | the queue is free again |
| GraphContainers.GraphContainer.DropPermit | deno/cli/module_loader.rs:798-810 | leaving early drops copy and permit |
| GraphContainers.GraphContainer.Snapshot | deno/cli/graph_container.rs:146-148 | a reader gets the current graph at any time |
| GraphContainers.UpdatesAreSerialized | deno/cli/graph_container.rs:137-168 | in every interleaving the graph is the initial one with the committed mutations applied in commit order, and only the holder has a copy, based on that graph |
| GraphContainers.SnapshotsAreCommittedPrefixes | deno/cli/module_loader.rs:1546-1575 | every snapshot is a committed prefix and later snapshots never go back |
| GraphContainers.AbandonedLeavesNoTrace | deno/cli/module_loader.rs:1325-1351 | for every dropped permit of every run, the run without that permit's wait, grant, copy, mutations and drop is a run that comes to the same state and shows every reader the same graph, whatever else the tasks do before and after |
| ErrorCauses.SameIsEquivalence | deno/libs/core/error.rs:767-783 | the field comparison of errors is an equivalence |
| ErrorCauses.SameIsIndistinguishable | deno/libs/core/error.rs:767-783 | two errors count as the same exactly when name, message, stack, frames, source line and frame index are equal and the messages are once " (in promise) " is read as " " |
| ErrorCauses.FindRecursiveCause | deno/runtime/fmt_errors.rs:158-177 | the loop computes the first repeat |
| ErrorCauses.FindsFirstRepeat | deno/runtime/fmt_errors.rs:158-177 | nothing is found exactly when no error of the chain repeats; otherwise the first repeat with both its ends |
| ErrorCauses.FormatJsError | deno/runtime/fmt_errors.rs:504-522 | when any two errors of the chain can be told apart by those fields, the whole chain without markers; otherwise the errors before the first that cannot, with both markers in place |
| ErrorCauses.PrintsUpToFirstRepeat | deno/runtime/fmt_errors.rs:235-310 | the whole chain when nothing repeats, otherwise exactly the errors before the first repeat with both markers in place |
| ErrorCauses.PrintedInOrder | deno/runtime/fmt_errors.rs:235-310 | every printed error stands at its place as its message, with the line of cause between, and the reference marker right behind the error it marks |
| ErrorCauses.OneMarkerOfEachKind | deno/runtime/fmt_errors.rs:235-310 | one reference and one circular marker for a circular chain, none otherwise |
| ProviderCopying.DecimalReadsBack | cc-switch/src/App.tsx:709-712 | decimal suffixes are different for different counters |
| ProviderCopying.DecimalIsPlain | cc-switch/src/App.tsx:709-712 | suffixes are digits without leading zeros |
| ProviderCopying.Pigeonhole | cc-switch/src/App.tsx:708-711 | a key list cannot hold more candidates than it is long |
| ProviderCopying.GenerateUniqueCopyKey | cc-switch/src/App.tsx:698-713 | the search ends for every key list and returns the first unused of key-copy, key-copy-2, key-copy-3 and so on |
| ProviderCopying.UpdatesShift | cc-switch/src/App.tsx:780-791 | the updates move exactly the providers behind the copy's place, by one |
| ProviderCopying.CopyIsAdded | cc-switch/src/App.tsx:715-808 | nothing is added when the providers behind cannot be moved; otherwise one provider, with the new key and the index right behind the original's |
| ProviderCopying.DuplicateKeepsOrder | cc-switch/src/App.tsx:715-791 | relative order is kept, the original stays, and the copy is alone in the slot right behind it |

## Left out

- Endpoints, authentication, rate limits and proxying of the resilience service: framework calls; only the state changes of the reset, weight and configuration endpoints are modelled.
- API key management of the resilience service: independent updates of single keys.
- Letter case of HTTP methods outside ASCII: `RouteRegistry.Upper` maps ASCII letters only.
- Route fields other than id, path, method, type, activity and usage count: they take no part in the index.
- Log status distribution: keyed by the number where the source uses its decimal text.
- LoadBalancing.LoadBalancer.PickRandom: does not model the distribution of the draw, which is a parameter.
- Rounding and display of averages and rates in the log statistics: presentation.
- JSX runtime types, the injected node reference and npm resolution in the type checker: external resolvers; their results are parameters or are not modelled.
- GraphWalking.GraphWalker.Expand: the hash is the list of what is written to the hasher, not its digest; redirects are one final step per specifier.
- The `@ts-check` pragma test on comment texts: whether a script is checkable is a field of its module.
- Incremental build information in the check cache: the compiler is a function of the request.
- PrefixedWriting.PrefixedWriter.Write: an inner writer that fails is not modelled; neither is the inner flush.
- The order in which the task queue grants waiting tasks: any waiting task may be next, which covers every order.
- Aggregated errors, stack frames, colours, suggestions and the trimming of "Uncaught " when errors are printed: presentation; the output is a list of pieces.
- ErrorCauses.SameIsIndistinguishable: lists of aggregated errors are not compared, because errors here carry none.
- ProviderCopying.DuplicateKeepsOrder: sort indices are integers.
- Redirects, fetching, workers and module loading around the graph containers: network and runtime code.
- Rendering and dialogs of the provider app.
