# Verification of Pintle

Pintle is a reverse proxy for local development: a Go process that routes requests to backends and checks their
health, and a small TypeScript dashboard. This project models its stateful parts in Dafny and proves what they are
for. Nothing of Pintle is executed; the model follows its source, branch by branch.

`dafny verify dfyconfig.toml` checks everything.

## Reading guide

| area | files |
|---|---|
| routing table and selection | `RouteTable.dfy`, `RouteAnswers.dfy` (what an answer means), `PoolFairness.dfy` |
| health checking, as a protocol | `HealthProtocol.dfy` (state, steps, invariants), `HealthSafety.dfy` (every step keeps them), `HealthTheorems.dfy` (what follows), `HealthRecords.dfy` (what results and readiness mean), `SweepBound.dfy` (time), `SweepResults.dfy` (what a sweep comes to) |
| the router class | `Router.dfy`: the locked sections as methods over mutable cells, each proved to be a step of the protocol |
| TLS ClientHello | `ClientHello.dfy` |
| configuration pipeline | `FileAdmission.dfy`, `AdmittedPools.dfy`, `Aggregator.dfy`, `Pipeline.dfy` |
| pipeline and router in one run | `Composition.dfy`: a product machine in which applying a configuration is the router's reload; `CheckedCells.dfy`, `ServedHealth.dfy`: health checking of the file being served |
| dashboard | `Polling.dfy`, `Stats.dfy`, `Grouping.dfy`, `Layout.dfy` |
| certificates, labels | `Certificates.dfy`, `CaddyLabels.dfy` |
| shared | `Domain.dfy`, `Sequences.dfy` |

Concurrent parts are state machines whose steps are the sections executed under one lock and the moves between them;
theorems quantify over all runs. The classes tie the code's loops and fields to the functions and steps those theorems
speak about. What belongs to a library is a parameter: regular expressions, URL parsing, `localeCompare`, the
upstreams template, host name normalisation, which files exist and load, the order in which a map is walked, clock
readings, probe outcomes.

## Where the code and its promise part

Each has a lemma with an input on which it happens, and a lemma with the exact condition.

| what happens | input | exact condition |
|---|---|---|
| a stripping route "/" removes the leading slash of the rewritten path | `RouteTable.StripRootLosesSlash` | `RouteTable.StripKeepsSlash` |
| round-robin over a number of members that does not divide 2^64 is uneven across the counter's wrap | `PoolFairness.UnevenAcrossWrap` | `PoolFairness.FairExactly` |
| the ClientHello parser indexes out of bounds | `ClientHello.PanicRecord` | `ClientHello.PanicsExactly` |
| a host_name that is not the first entry of its list is not found | `ClientHello.HiddenHostName` | `ClientHello.HostNameExactly` |
| the TCP certificate scan answers with the first covering domain listed, not the longest | `Certificates.ScanMaySettleForLess` | `Certificates.SameCertificateExactly` |
| lone routes merged in prefix mode replace a shared bucket named "__other" | `Grouping.ReservedPrefixes` | `Grouping.ConservedExactly` |
| the aggregated last timestamp is not the newest | `Stats.OvertakenRecordHidesLatest` | `Stats.LatestExactly` |
| Caddy's `handle` beside a `handle_path` for "/" depends on map order | `CaddyLabels.ContestedLabels` | `CaddyLabels.OrderFreeExactly` |

Records are stamped when their request completes (internal/proxy/proxy.go:58, 73, 122 and 136), so for the timestamp two
handlers have to race between the stamp and the collector's lock, or the wall clock has to step back.

## Model

| member | source | states |
|---|---|---|
| `HealthRecords.HealthyExactly` | internal/router/health.go:115-146 | in every reachable state of every interleaving a key answers "healthy" exactly when an owner runs and the last result let through for that key's own cell was launched under the current generation, answered 2xx, and answered before its deadline |
| `HealthRecords.RunVerdicts` | internal/router/health.go:134 | every result let through is healthy exactly when its probe was answered 2xx before its deadline |
| `HealthRecords.RecordsAreProbes` | internal/router/health.go:115-146 | every result let through belongs to a probe begun, answered so and let through in this run, in this order and at the times it states |
| `HealthRecords.DoneExactly` | internal/router/health.go:32-33 | a probe's context is done exactly when a reload came after its sweep began or its owner was cancelled |
| `HealthTheorems.StoppedStaysUnready` | internal/router/health.go:65-73 | once RunHealth has returned nothing is ready and nothing is in flight, until it is entered again |
| `HealthTheorems.StaleNeverAdmitted` | internal/router/health.go:138-146 | a probe whose context is done is never let through, in any continuation, however late it answers |
| `HealthTheorems.ReloadMakesStale` | internal/router/health.go:27-33 | a reload makes every probe in flight such a probe |
| `HealthTheorems.StaleChangesNothing` | internal/router/health.go:138-146 | whenever, later in the run, such a probe reaches its last section, that section changes no cell and nothing else shared |
| `HealthTheorems.ProbesBounded` | internal/router/health.go:93-111 | at most four probes in flight, across reloads and owner restarts; no two on one cell; none while the owner waits, collects, leaves or is absent |
| `HealthTheorems.ProbeSpacing` | internal/router/health.go:86-90 | a probe in flight started no sooner than its cell's interval after every result let through for it |
| `HealthTheorems.ResultSpacing` | internal/router/health.go:143-145 | two results let through for one cell are apart by its interval, from completion to start |
| `HealthTheorems.LiveResultIsAdmitted` | internal/router/health.go:140 | of the three guards on a late result the first decides: in every reachable state a live context passes the other two |
| `HealthTheorems.ViewAgreesWithRouting` | internal/router/health.go:177-195 | a health-checked route counts as available in a selection exactly when its row says "ready"; a checked route of the table always has its row |
| `HealthTheorems.UnknownExactly` | internal/router/health.go:177-195 | a row is "unknown" exactly while no owner runs or its own cell has no result yet |
| `HealthTheorems.ReloadMakesUnknown` | internal/router/router.go:155-164 | after a reload every row is unknown and no key is ready |
| `HealthTheorems.UnavailableExactly` | internal/router/router.go:224-229 | a pool answers "unavailable" exactly when it has no available member; the missing-counter half of the test never decides |
| `HealthTheorems.QuietSegment` | internal/router/router.go:230 | while neither table nor set of ready keys becomes another, all counters move only by the selections made, in the order made, through every other kind of step, results that change no readiness included |
| `HealthTheorems.RunIsRoundRobin` | internal/router/router.go:230 | in any stretch of a run without a reload a pool's selections, each answered in its own state, walk its members in turn from its counter on, modulo 2^64, as long as each of them finds the same members available: through probe results, owner restarts and any health changes in between |
| `HealthTheorems.FairBetweenChanges` | internal/router/router.go:207-234 | in such a stretch k * m consecutive selections pick each of the m members exactly k times and nothing else, below 2^64 selections |
| `HealthTheorems.PicksAreAvailable` | internal/router/router.go:212-223 | through any changes at all, no selection takes a member that is unavailable at that moment, or one of another class |
| `HealthTheorems.RunKeeps` | internal/router/health.go:27-146 | the invariants of HealthProtocol hold in every state of every run |
| `HealthSafety.StepKeeps` | internal/router/health.go:27-146 | every step of owner, workers, reloads, selections, clock and cancellations keeps the invariants |
| `HealthSafety.LiveMeansCurrent` | internal/router/health.go:140 | a worker whose context is live belongs to the current generation, and its cell is still the one its key names |
| `HealthSafety.BuiltCounters` | internal/router/router.go:155-160 | a reload gives every pooled route of the new table a counter |
| `Router.Router.Update` | internal/router/router.go:87-164 | a reload of the class is the Update step of the protocol: the table BuildTable describes, zeroed counters, next generation; and the health map has the keys of the input's routes with a health check, a pool and a static source, no other |
| `Router.Router.FileRoutes` | internal/router/router.go:93-118 | each host holds its routes in input order, each valid pattern its own in order of first appearance, invalid patterns are dropped |
| `Router.Router.FlattenLocked` | internal/router/router.go:60-69 | every route of the table and nothing else, in some order of the map |
| `Router.Router.ResetHealthLocked` | internal/router/health.go:27-43 | the Reset step: old context cancelled, a new one derived, one fresh unhealthy cell per checked key, the wake token set; which keys are checked is CheckedCells.CellsExactly |
| `CheckedCells.CellsExactly` | internal/router/health.go:27-43 | after a reload the health map has the keys of the routes of the input that ask for a health check, belong to a pool and are static, and no other; each with a new, unhealthy cell that is due at once; each pool has a counter at zero |
| `Router.Router.StartHealth` | internal/router/health.go:49-58 | a second owner is turned away without a trace; the first one enters the next generation |
| `Router.Router.StopHealth` | internal/router/health.go:65-73 | the Stop step: context cancelled, every current cell unhealthy, no owner |
| `Router.Router.CollectDue` | internal/router/health.go:83-91 | current cells whose time has come, each once, in the order of their health keys; all that were due when the look began |
| `Router.Router.CollectedJobs` | internal/router/health.go:83-91 | and these are the jobs of the protocol's Collect step |
| `Router.Router.Publish` | internal/router/health.go:138-146 | the last section of a probe: all three guards, then the result, or no change at all |
| `Router.Router.MatchPool` | internal/router/router.go:207-234 | one selection over the loops and counters of the class; of a pool an available candidate is contacted at its own target for one ticket, or the answer is unavailable with no target and takes none; the path is kept, or stripped, as the matched route says |
| `Router.Router.Resolve` | internal/router/router.go:166-182 | the loops over hosts and patterns find the match of the table, and serve it as one selection |
| `Router.Router.HasHost` | internal/router/router.go:73-85 | the loop computes RouteTable.HasHost |
| `Router.Router.SnapshotHealth` | internal/router/health.go:167-203 | one row per current cell with its readiness, origin and capped age, read at some moment of the call, in the order of the joined fields |
| `Router.RowExactly` | internal/router/health.go:177-195 | a row is its route's: host, pool, path and origin; ready, down or unknown; whole milliseconds since the result, capped and marked after a day, none without a result, zero for a result from the future |
| `RouteTable.UpdateThenResolveIsScan` | internal/router/router.go:87-131 | Update followed by Resolve equals a plain scan of the input list: exact host before patterns, patterns by first appearance, longest matching path, earliest on ties, members in input order |
| `RouteAnswers.AnswerExactly` | internal/router/router.go:87-182 | after Update a request is answered by a route of the input exactly if one may answer it: under its exact host before any pattern, patterns by first appearance, the longest path of those filed together and of these the earliest; what it may be forwarded to are the routes filed together with it |
| `RouteAnswers.ServedExactly` | internal/router/router.go:186-234 | an unpooled route is forwarded to its own target; of a pool, one whose route agrees in host, pool, path, strip and h2c and is not checked and unready, at that route's target, for one ticket; else unavailable, without target or ticket |
| `RouteAnswers.RewriteExactly` | internal/router/router.go:189-195 | without stripping the path is the request's; with it, what follows the route's path, or "/" if nothing does |
| `RouteAnswers.MatchesIsCovers` | internal/router/router.go:188 | a path is admitted by "/", as the route's path itself, or below it after a slash |
| `RouteTable.BestScanIsLongest` | internal/router/router.go:120-131 | the scan's answer matches, no matching route is longer, and no earlier one is as long |
| `RouteTable.SortedPermutation` | internal/router/router.go:120-125 | the sort is descending by path length and keeps each route as often as it was there |
| `RouteTable.SortIsStable` | internal/router/router.go:120-125 | routes of one path length keep their input order |
| `RouteTable.AnswerIgnoresHealth` | internal/router/router.go:166-182 | which class of routes answers, and the rewritten path, never depend on health or counters: an unavailable pool does not fall through |
| `RouteTable.HasHostIffResolvable` | internal/router/router.go:73-85 | HasHost(h) holds exactly when some path resolves on h, for every table Update can build |
| `RouteTable.StripKeepsSlash` | internal/router/router.go:190-195 | a stripped path keeps its leading slash exactly when the route is not "/" or the path is "/" or starts with "//" |
| `RouteTable.StripReprefixes` | internal/router/router.go:190-195 | putting the prefix back gives the request path exactly when it was no exact hit; an exact hit becomes "/" |
| `RouteTable.StripRootLosesSlash` | internal/router/router.go:190-195 | the input on which the slash is lost: a stripping route "/" turns "/x" into "x" |
| `RouteTable.TableIsInputMinusInvalid` | internal/router/router.go:97-118 | the table holds the input minus invalid patterns, each route as often as given |
| `PoolFairness.PicksAreRoundRobin` | internal/router/router.go:230 | over any run of requests a pool's picks walk its members in turn from its counter on, modulo 2^64 |
| `PoolFairness.FairSelection` | internal/router/router.go:207-234 | k * m consecutive selections pick each of m members k times, below 2^64 selections |
| `PoolFairness.FairExactly` | internal/router/router.go:230 | with the 64-bit wrap: a window of k turns is fair to all exactly when it ends before the wrap, the wrap falls between turns, or m divides 2^64 |
| `PoolFairness.UnevenAcrossWrap` | internal/router/router.go:230 | a window that is not: three selections among three members from the last ticket before the wrap give one of them two |
| `PoolFairness.OneClassDraws` | internal/router/router.go:213-223 | when a pool key has one class of routes, every request to it draws on the same available members |
| `ClientHello.ParseSNI` | internal/server/sni.go:13-87 | the cursor loop computes Parse, all accesses in bounds but the one reported as Panic |
| `ClientHello.AnsweredExactly` | internal/server/sni.go:13-87 | on any buffer a non-empty name is answered exactly when the length fields, followed in order, lead to it |
| `ClientHello.PanicsExactly` | internal/server/sni.go:24-28 | the header-only record with length zero is the one shape that indexes out of bounds |
| `ClientHello.PanicRecord` | internal/server/sni.go:24-28 | such a record: the five bytes 16 03 01 00 00 |
| `ClientHello.ParseSerialise` | internal/server/sni.go:13-87 | parsing a serialised ClientHello, with any session id, suites, compression, extensions and trailing bytes, gives the first entry of its first server_name extension |
| `ClientHello.LengthsAreTrue` | internal/server/sni.go:19-22 | the record and message lengths of a serialised hello are those of its bytes |
| `ClientHello.HostNameExactly` | internal/server/sni.go:68-81 | the answer is the host_name of section 3 of RFC 6066 exactly when it is the first entry of its list or there is none |
| `ClientHello.HiddenHostName` | internal/server/sni.go:72-75 | a well-formed message whose host_name is not found, because another kind of name is listed first |
| `Aggregator.Aggregator.Update` | internal/aggregator/aggregator.go:30-48 | the provider's message is replaced and the channel holds the new merge; at most the old value is lost |
| `Aggregator.Aggregator.Merge` | internal/aggregator/aggregator.go:50-66 | some walk over the messages gives the merge |
| `Aggregator.MergesAgree` | internal/aggregator/aggregator.go:50-66 | any two walks give the same routes and TCP routes, each as often |
| `Aggregator.MergesAgreeExactly` | internal/aggregator/aggregator.go:57-62 | and the same passthrough domains, or expected hosts, exactly when no two providers name different ones |
| `Aggregator.PassthroughIsOwners` | internal/aggregator/aggregator.go:57-59 | while one provider alone names passthrough domains, every merge hands on exactly those |
| `Aggregator.ExpectedIsOwners` | internal/aggregator/aggregator.go:60-62 | and likewise for expected hosts |
| `Aggregator.SecondSendNeverBlocks` | internal/aggregator/aggregator.go:38-47 | whenever the second send is about to happen, it can |
| `Aggregator.UpdateDelivers` | internal/aggregator/aggregator.go:37-47 | an update is over after one step of its own if the channel is empty, else after three, and leaves the newest merge in it; a value leaves only to the consumer or to that drain |
| `Aggregator.ReceivedInOrder` | internal/aggregator/aggregator.go:37-47 | what the consumer receives is an in-order subsequence of the merges |
| `Aggregator.LatestSurvives` | internal/aggregator/aggregator.go:37-47 | whenever no update is under way, the last value buffered or received is the merge of the final messages |
| `Pipeline.Config.Validate` | internal/config/config.go:124-148 | static-only is accepted exactly with a loopback address, filled in if empty, distinct proper ports, no redirect, no development server; without it exactly with no address |
| `Pipeline.Config.ValidateMessage` | internal/config/config.go:153-167 | a message is accepted exactly when it carries no error and, in static-only mode, comes from the file provider without TCP or passthrough entries; each error says which of these fails |
| `Pipeline.LastAcceptedIsLast` | cmd/pintle/main.go:125-138 | the map of accepted messages holds for each provider exactly its last admitted one |
| `Pipeline.DrainedIsLastAccepted` | cmd/pintle/main.go:98-146 | once drained, the router was given a merge of exactly the last admitted message of each provider |
| `Pipeline.GivenWasAccepted` | cmd/pintle/main.go:140-146 | before that, a merge of the last admitted messages of some earlier moment |
| `Pipeline.AcceptedExactly` | cmd/pintle/main.go:98-138 | in every run the admitted messages are those that arrived, in order, minus the inadmissible ones: a refused message leaves no trace in anything made from them, at any time |
| `Pipeline.StaticOnlyBoundary` | internal/config/config.go:157-165 | in static-only mode every configuration is one admitted file message as a whole: no TCP or passthrough entry and no other provider's route |
| `FileAdmission.Hostnames` | internal/provider/file/file.go:40-52 | the loop computes HostNames |
| `FileAdmission.HostNamesExactly` | internal/provider/file/file.go:40-52 | a name is listed exactly when some entry trims to it and it is not blank; none repeats |
| `FileAdmission.TrimExactly` | internal/provider/file/file.go:43-46 | trimming takes the space off both ends and nothing else |
| `FileAdmission.LoadRecord` | internal/provider/file/file.go:208-276 | one record: the first thing wrong with it in the order of the checks, or its routes, target by target and host by host |
| `FileAdmission.ReadDocument` | internal/provider/file/file.go:160-205 | a document is read exactly when it is a mapping that names at least one collection, names each as a sequence, and decodes; else the first failure in the order of the checks |
| `FileAdmission.LoadFileParsed` | internal/provider/file/file.go:160-302 | the first failure of the document, else of its records, else the probe limit, else the routes of all records and the TCP routes |
| `FileAdmission.Check` | internal/provider/file/file.go:306-339 | the first failing check of the whole file, else the message it publishes |
| `FileAdmission.LoadFile` | internal/provider/file/file.go:151-157 | a reload publishes the whole file or a message that carries an error, the latter exactly when the document or the check of what it decodes to fails |
| `FileAdmission.AcceptedExactly` | internal/provider/file/file.go:306-339 | a file is accepted exactly when every record is sound and named, the records ask for at most 128 probed pairs, and TCP and passthrough entries are sound; the second pass over HTTP targets never decides |
| `FileAdmission.RoutesExactly` | internal/provider/file/file.go:221-273 | a route is loaded exactly when it belongs to one of a record's targets under one of its hosts, with that record's strip flag, health check, path or "/", and pool if it lists replicas |
| `FileAdmission.PortRoutes` | internal/provider/file/file.go:81-89 | a record of an accepted file that names a port between 1 and 65535, as number or text, has under each host a route to plain HTTP at the host address and that port |
| `FileAdmission.TextTarget` | internal/provider/file/file.go:90-125 | any other text is the target itself, but for the Docker host, which is replaced by the detected address if there is one |
| `FileAdmission.NoTargetRefused` | internal/provider/file/file.go:221-260 | a record without target and targets is refused |
| `FileAdmission.TargetsExactly` | internal/provider/file/file.go:228-258 | a record's targets are accepted exactly when each is http or https to a host, without credentials or fragment, its port absent or from 1 to 65535, replicas are numbers or text, and no two are the same |
| `FileAdmission.HealthRefusedExactly` | internal/provider/file/file.go:208-218 | a health check is refused exactly without replicas, without a clean path of one leading slash, or with an interval outside 5 to 300 seconds or a timeout outside 1 to 10 or longer than it |
| `FileAdmission.TcpRoutesExactly` | internal/provider/file/file.go:289-299 | each TCP entry becomes one route with its host and listen port and the destination it names: a port of the host address, or host and port |
| `FileAdmission.PassthroughExactly` | internal/provider/file/file.go:343-353 | a passthrough target is accepted if empty, "traefik", or a host with a port from 1 to 65535, for a named domain |
| `FileAdmission.PortFormsAgree` | internal/provider/file/file.go:81-94 | a port given as a number or as text resolves alike, for HTTP and for TCP |
| `FileAdmission.TcpTargetSplits` | internal/provider/file/file.go:127-147 | a TCP destination in text is split at its first colon |
| `FileAdmission.CheckedTargetsAreLoaded` | internal/provider/file/file.go:316-327 | whatever loaded passes that second pass |
| `FileAdmission.PairsCounted` | internal/provider/file/file.go:277-286 | the count compared with 128 is the sum over checked records of hosts times targets |
| `AdmittedPools.AdmittedPool` | internal/provider/file/file.go:225-274 | a pool of an accepted file has 1 to 32 members per host, pairwise distinct targets, and one path, strip, health, protocol |
| `AdmittedPools.PoolIsRecord` | internal/provider/file/file.go:225-274 | a pool name stands for one record: its routes under a host are that record's replicas in order |
| `AdmittedPools.AdmittedKeys` | internal/router/health.go:22-24 | health keys of an accepted file's checked routes are pairwise distinct, at most 128; only health-checked paths need to be free of NUL |
| `AdmittedPools.HealthKeyTells` | internal/router/health.go:22-24 | the joined key gives back its four fields when pool, path and target hold no NUL |
| `AdmittedPools.OneCellPerCheckedRoute` | internal/router/health.go:33-38 | after Update the health map has exactly one cell per checked route, and every pooled route a counter at zero |
| `AdmittedPools.OneCellWhileServed` | internal/router/health.go:33-38 | the cells stay one per checked route, at most 128, and the counters in place, for as long as the table is that file's |
| `CheckedCells.OneCellPerProbedPair` | internal/router/health.go:33-38 | while an accepted file is served there are as many cells as its records with a health check have hosts times targets, one under the key of each |
| `CheckedCells.CellOfProbed` | internal/router/health.go:33-38 | and the cell of such a pair holds the very route of that record, target and host |
| `AdmittedPools.AvailableReplicas` | internal/router/router.go:212-223 | the members of a selection are the pool's ready replicas, without repetition, in file order |
| `AdmittedPools.AdmittedPoolIsFair` | internal/router/router.go:207-234 | selection from any pool of an accepted file is fair, whatever other routes surround it |
| `Composition.MergeDrawsPools` | internal/aggregator/aggregator.go:50-66 | however messages are merged, the pooled routes are the file's, in file order |
| `Composition.RunKeeps` | cmd/pintle/main.go:120-146 | in every interleaving of providers, aggregator, reloads, probes and requests all invariants hold, and the router's own table is the one built from what the pipeline last gave it |
| `Composition.DrainedProvides` | cmd/pintle/main.go:98-146 | once the pipeline has drained, the pooled routes it gave are those of the last admitted file, in file order |
| `Composition.DrainedTable` | cmd/pintle/main.go:140-146 | and the router's own table holds the routes of the last admitted messages minus invalid host patterns, each as often as given |
| `Composition.ServedFairly` | internal/router/router.go:207-234 | between reloads, while a pool's available replicas are the same at each of its selections, k * m consecutive selections pick each of the m replicas of the accepted file k times and nothing else, through any ticks, probe results, owner restarts, arriving messages and other requests |
| `Composition.ServedTargets` | internal/router/router.go:230-233 | in such a stretch each available replica's own target is dialled k times, and no other |
| `Composition.ServedSweepIsOver` | internal/router/health.go:93-111 | a sweep that begins while an accepted file is served has reached its join once 320 seconds and the time lost have passed |
| `Composition.DrainedHealthMap` | internal/router/health.go:27-43 | and its health map has one cell per checked route of that file, at most 128, and each of its pools a counter |
| `ServedHealth.ServedExactly` | internal/router/health.go:115-146 | while an accepted file is served, a replica with a health check may be selected exactly when an owner runs and the last result for its own cell, launched under this generation, was answered 2xx within the record's timeout in seconds |
| `ServedHealth.ServedSpacing` | internal/router/health.go:143-145 | and two results for it are apart by at least the record's interval in seconds |
| `SweepBound.SweepEndsInTime` | internal/router/health.go:93-111 | in every run a sweep over n due cells takes at most ceil(n / 4) times the largest timeout and the time lost to delays and overruns, whatever is reloaded or cancelled meanwhile |
| `SweepBound.NothingLost` | internal/router/health.go:93-111 | no time is lost while the clock ticks only when the owner waits and answers are not overdue |
| `SweepBound.SweepIsOver` | internal/router/health.go:93-111 | it does reach its join: after at most 7 n + 1 steps of its owner and workers, and once that time is past; until then some step of it is always possible |
| `SweepResults.DueIsProbed` | internal/router/health.go:83-111 | every cell that is due when a sweep begins has a new result when its workers are joined, unless a reload or a cancellation cut it off |
| `SweepBound.NeverStuck` | internal/router/health.go:93-111 | in every reachable state of a sweep a step of its owner or of one of its workers is possible |
| `SweepBound.OwnerMoves` | internal/router/health.go:76-92 | outside a sweep the owner can move on the ticker, on the wake token, when its context is done, and from collecting and leaving |
| `SweepBound.AdmittedSweepEndsInTime` | internal/provider/file/file.go:277-286 | under the admission limits every sweep is over within 320 seconds and the time lost |
| `SweepBound.AdmittedHealth` | internal/provider/file/file.go:215 | while an accepted file is served the health map has at most 128 cells, each with a timeout of at most ten seconds |
| `Polling.PollingResource.Read` | ui/src/polling.ts:25-60 | join, supersede or start: the new closure state, one observer call exactly when a request starts, and the promise the caller gets |
| `Polling.PollingResource.OnFulfilled` | ui/src/polling.ts:40-43 | publishes the value exactly when the request is current |
| `Polling.PollingResource.OnFailed` | ui/src/polling.ts:44-52 | publishes the error exactly when the request is current, keeping the data |
| `Polling.PollingResource.OnFinally` | ui/src/polling.ts:53-57 | drops the handles exactly when the request is current |
| `Polling.PollingResource.Dispose` | ui/src/polling.ts:68-74 | disposed, a new generation, the held request aborted, no handles |
| `Polling.OnlyNewestPublishes` | ui/src/polling.ts:38-60 | only the newest, unsettled request publishes a result; results are published in strictly increasing request order |
| `Polling.ViewExactly` | ui/src/polling.ts:20-60 | the view is the function of the history it should be: last good value, last error, loading or refreshing exactly while the newest request is pending |
| `Polling.OneLiveRequest` | ui/src/polling.ts:25-31 | at most one request is neither aborted nor settled, and none after disposal |
| `Polling.PollJoins` | ui/src/polling.ts:26-27 | a poll changes nothing while a request is in flight, else starts one |
| `Polling.RetrySupersedes` | ui/src/polling.ts:25-37 | a retry starts a request of its own, every other unsettled one is aborted, and the view keeps the data, waits, and keeps the error only beside data |
| `Polling.DisposeAborts` | ui/src/polling.ts:68-74 | disposal aborts every unsettled request and drops both handles |
| `Polling.ResultsAreOutcomes` | ui/src/polling.ts:38-52 | every published value or error is what the fetcher of that request came to |
| `Polling.ChainsRun` | ui/src/polling.ts:38-57 | every promise chain can run to its end, whichever way the fetcher goes |
| `Polling.RejectionShows` | ui/src/polling.ts:46-51 | a rejection shows the error's message, or "Request failed", beside the data there was |
| `Polling.NothingAfterDispose` | ui/src/polling.ts:68-74 | after disposal the view, the results and the requests stay as they are, for ever |
| `Polling.DataStays` | ui/src/polling.ts:20-52 | data once fetched never becomes null again |
| `Certificates.Manager.GetCertificate` | internal/tls/manager.go:78-108 | the walk's certificate, else that of the least domain, else none |
| `Certificates.WalkIsLongest` | internal/tls/manager.go:84-92 | the walk answers with the longest domain that covers the name, and with none exactly when none does |
| `Certificates.TcpRouter.FindCert` | internal/server/tcp.go:86-96 | the first listed certificate whose domain is the name or a dotted suffix of it |
| `Certificates.WalkAndScanAgree` | internal/server/tcp.go:86-96 | over the same domains the walk finds a certificate exactly when the scan does |
| `Certificates.SameCertificateExactly` | internal/server/tcp.go:90-94 | they find the same one exactly when the first covering domain listed is also the longest |
| `Certificates.ScanMaySettleForLess` | internal/tls/manager.go:117-131 | in sorted order a base domain can be found ahead of a longer one |
| `Certificates.DiscoverDomains` | internal/tls/manager.go:29-51 | the sorted list of domains that have both files |
| `Certificates.Manager.LoadCerts` | internal/tls/manager.go:53-70 | what is loaded is laid over what was served |
| `Certificates.LoadedExactly` | internal/tls/manager.go:53-70 | a domain is served from its pair of files if that loads, else from what was there before |
| `Certificates.PrefixedConn.Read` | internal/server/tcp.go:186-193 | reads give the buffered bytes and then the connection's, nothing lost, repeated or reordered |
| `Stats.UpdateStats` | internal/stats/stats.go:46-54 | the running figures become the exact count, error count, mean and last timestamp of one record more |
| `Stats.FiguresExactly` | internal/stats/stats.go:46-54 | total is the number of records, errors those with a status of 400 or more, average times total their summed duration, last the timestamp of the last |
| `Stats.EdgeReads` | internal/stats/stats.go:75 | an edge's key is its host, an arrow and its target; it tells edges apart unless a host holds a dash |
| `Stats.Collector.Record` | internal/stats/stats.go:56-85 | with Valid: after any records every host and every edge entry shows the exact figures of its own accepted records, the buffer the last thousand |
| `Stats.Collector.GetRecentRequests` | internal/stats/stats.go:87-107 | the newest records first, as many as asked, kept and there are |
| `Stats.Collector.GetTotalRequests` | internal/stats/stats.go:137-146 | the number of accepted records, in whatever order hosts are summed |
| `Stats.Collector.GetHostStats` | internal/stats/stats.go:109-119 | exact figures per host |
| `Stats.Collector.GetEdgeStats` | internal/stats/stats.go:121-131 | exact figures per edge |
| `Stats.TotalsAgree` | internal/stats/stats.go:56-85 | totals over hosts and over edges both equal the number of accepted records, even when two edges share a key |
| `Stats.AggregateStats` | ui/src/components/grouping.ts:103-133 | the loop computes Outcome of its accumulators |
| `Stats.AggregateIsUnion` | ui/src/components/grouping.ts:103-133 | over distinct hosts the aggregate is the figures of all their records together, but for the last timestamp |
| `Stats.LatestExactly` | ui/src/components/grouping.ts:122 | that timestamp is the newest of all the records exactly when none is positive or some newest record has no older one of its host after it |
| `Stats.LatestWhenOrdered` | ui/src/components/grouping.ts:122 | which holds whenever each host's timestamps are in order |
| `Stats.OvertakenRecordHidesLatest` | internal/stats/stats.go:53 | the input on which it is not: of two records of one host the one stamped first reaches the collector last |
| `Grouping.GroupRoutes` | ui/src/components/grouping.ts:64-101 | the loops compute Grouped |
| `Grouping.ConservedExactly` | ui/src/components/grouping.ts:64-101 | grouping keeps every route as often as it was there precisely when prefix mode does not set lone routes over a shared "__other" prefix |
| `Grouping.LostExactly` | ui/src/components/grouping.ts:75-86 | otherwise exactly the routes under that prefix are dropped |
| `Grouping.ReservedPrefixDrops` | ui/src/components/grouping.ts:83-85 | three routes on which that happens |
| `Grouping.ReservedPrefixes` | ui/src/components/grouping.ts:53-56 | hosts that make up such routes, for every normalisation that leaves these three plain names alone: of "__other", "__other-b" and "c" the first two are lost |
| `Grouping.GroupsByKey` | ui/src/components/grouping.ts:64-92 | a group holds exactly the routes with its key; the reserved one, once lone routes are merged, exactly those |
| `Grouping.MembersByMode` | ui/src/components/grouping.ts:58-62 | that key is the source, the base domain, or the prefix, as the mode says |
| `Grouping.BaseDomainExactly` | ui/src/components/grouping.ts:47-51 | the last two labels of the normalised name, or the name itself |
| `Grouping.HostPrefixExactly` | ui/src/components/grouping.ts:53-56 | what comes before the first dot or dash of the normalised name |
| `Grouping.GroupsInOrder` | ui/src/components/grouping.ts:88-98 | groups come by label with the reserved one last, their routes by host |
| `Grouping.OrderExactly` | ui/src/components/grouping.ts:88-98 | a group is labelled by its key, the reserved one "other"; labels and host names come in order, the reserved group last |
| `Grouping.GroupsNonEmpty` | ui/src/components/grouping.ts:64-101 | no group is empty |
| `Layout.Layout` | ui/src/components/useFlowLayout.ts:154-273 | unique routes, filtered, grouped when there are more than five, placed |
| `Layout.ThresholdExactly` | ui/src/components/useFlowLayout.ts:206-218 | up to five hosts nothing is grouped or hidden; beyond that the mode groups, and what no filter matches is hidden if asked |
| `Layout.GroupsStand` | ui/src/components/useFlowLayout.ts:225-271 | a group of one stands as its route at 720, any other as a group node with its open flag, its routes beside it at 980, 90 apart, if open; all scaled |
| `Layout.CursorNext` | ui/src/components/useFlowLayout.ts:225-271 | the first group stands at 10, each next one 90 below, or 90 times its routes if it is open |
| `Layout.UngroupedStand` | ui/src/components/useFlowLayout.ts:216-224 | ungrouped, the routes stand one below the other from 10 on, 90 apart |
| `Layout.UniqueExactly` | ui/src/components/useFlowLayout.ts:155-160 | one route for each host there is, no host twice |
| `Layout.NodesApart` | ui/src/components/useFlowLayout.ts:219-273 | for every positive scale two service or group nodes of one column are at least a row height apart |
| `Layout.ShownOnceExactly` | ui/src/components/useFlowLayout.ts:216-273 | every visible host is shown exactly once, as its own node or inside one collapsed group, precisely when the reserved key does not collide |
| `CaddyLabels.ParseCaddyLabels` | internal/provider/docker/labels.go:132-194 | whatever the orders of the first and the inner loop, the results depend on the order in which labels and prefixes are walked alone |
| `CaddyLabels.FoldExactly` | internal/provider/docker/labels.go:154-178 | what one prefix comes to: port, strip, and the path its two directives leave, by which of them is met first |
| `CaddyLabels.NormalExactly` | internal/provider/docker/labels.go:162-176 | a matcher, with or without its star, stands for what is left of its closing slashes, or "/" if nothing is |
| `CaddyLabels.PrefixExactly` | internal/provider/docker/labels.go:129 | the prefixes are "caddy" and "caddy_" with a number |
| `CaddyLabels.ContestedMatters` | internal/provider/docker/labels.go:162-176 | a prefix whose handle_path stands for "/" and whose handle does not: two orders with different results |
| `CaddyLabels.ContestedLabels` | internal/provider/docker/labels.go:162-176 | labels with such a prefix: handle_path "/*" beside handle "/api*" |
| `CaddyLabels.OrderFreeExactly` | internal/provider/docker/labels.go:132-194 | the results, as a multiset, do not depend on map order precisely when no prefix with a host is contested in that way |

## Left out

- Router.Router.SnapshotHealth: the code's sort is unstable; rows with equal joined fields come here in the order of an arbitrary walk.
- Router.Router.Resolve: one call is one atomic step; two calls that overlap are ordered by their counter tickets, as the read lock and the atomic add allow.
- Router.Router.Update: the log lines about added and removed routes are not modelled.
- HealthRecords.HealthyExactly: a probe is a start, an answer and a last section; the HTTP request itself, and when within it the deadline is noticed, are an arbitrary outcome.
- HealthTheorems.RunKeeps: the generation counter is unbounded, without its 64-bit wrap; contexts are named by generation and owner numbers.
- SweepBound.SweepEndsInTime: scheduling delays, and an HTTP client that returns after its deadline, count as lost time, without a bound of their own.
- FileAdmission.LoadFileParsed: reading the file, parsing YAML and decoding it are given by their outcome. Decimal text out of the machine's range is read as its value, which every range check here refuses just the same.
- FileAdmission.Check: error texts are values; parsing a URL, and writing it with another host, are parameters.
- FileAdmission.PortRoutes: assumes that the URL parser accepts the host address followed by a port of digits and refuses a negative port.
- FileAdmission.PassthroughExactly: assumes that the splitter takes host and port apart at their colon.
- AdmittedPools.AdmittedKeys: assumes that the URL parser refuses NUL, as it does all ASCII control characters, and that the paths of health-checked records hold none.
- Aggregator.Aggregator.Update: the consumer may take the old value at one place, between the failed send and the drain; every other moment is covered by the state machine beside it.
- Pipeline.DrainedIsLastAccepted: cancellation of the process, TLS reloads and TCP listeners started per port are not modelled.
- Polling.PollingResource.Read: the observer neither throws nor calls back into the resource; fetched values are not null.
- Certificates.DiscoverDomains: the directory is given as its listing and a test for key files; reading and parsing key pairs is a parameter.
- Stats.UpdateStats: averages are exact reals, without floating-point rounding.
- Grouping.GroupRoutes: normalising a host name and comparing strings are parameters.
- Layout.Layout: edges, labels, styles, dimming and the fixed infrastructure nodes are not modelled.
- CaddyLabels.ParseCaddyLabels: recognising an upstreams template and reading its port is a parameter.
- Docker discovery, Traefik labels, SNI passthrough targets, redirects, the HTTP proxy handler, the API, logging and the command-line tools: foreign calls, presentation, or easy members.
