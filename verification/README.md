# Port observation, queries and guarded kills: a verified model

Kickoutchi lists the processes behind open ports and can terminate them. This project models the
parts of it whose correctness is hardest to see from one function, and proves what they promise.

- **Snapshot differ** (`SocketOrder`, `Pairing`, `DiffSpec`, `DiffTheorems`, `Watch`). `SnapshotDiff`
  is a class with the program's positions, pending replacement and resumable cursor. Draining it
  yields an eager comparison of two sorted views, which conserves socket multiplicity, mirrors under
  swapping, is ordered, and does not depend on the order of either snapshot.
- **Two-pass collection** (`NativePass`, `PassComparison`, `UncertaintyMerge`, `Publication`,
  `Consistency`, `ConsistencyTheorems`, `Collection`). The host is an arbitrary source that may answer
  every call differently. A Complete snapshot is characterised by what both raw reads saw; a failed
  collection is always explained.
- **Destructive-authority gate** (`KillGate`, `KillTheorems`). What a grant says, in both directions,
  and end to end about the two reads.
- **Query engine** (`QueryModel`, `QueryCaches`, `QueryEngine`, `QueryTheorems`). Sort-then-filter equals
  filter-then-sort; gates, cost reordering and memo tables keyed by pointer identity are invisible.
  Borrowed text is a slice of one memory, so two equal texts may have different identities.
- **Terminal application** (`KillTargets`, `AppView`, `App`, `AppTheorems`). A class with the application's fields.
  `Run` takes any sequence of actions, worker answers and ticks; `Valid` is what every reachable state
  satisfies. Kills are recorded in a ghost log whose every entry is authorized.
- **Smaller cores**: process trees and ancestors (`ProcessTree`, `TreePlan`), the permit counter and
  the bounded pipe reader (`WorkerPermits`), the display sanitizer (`Display`), and the canonical
  public document (`PublicOutput`).

`Orders` holds comparators, their laws, and stable facts about sorting and filtering; `OrderTheorems`
says what each comparator sorts by; `Observation` holds the observation domain. `dafny verify dfyconfig.toml` checks everything.

The gate judges listening TCP and bound UDP sockets, while the projection lists every listening or
bound one. The adapters build no other pair of protocol and open state (`NativePass.BuiltState`), and
with tables of that kind every open socket on a granted port, and every row handed to the kill, is
verified by both reads (`KillTheorems.GrantedPortHeld`, `KillTheorems.GrantedPidHeld`).
`KillTheorems.GrantedRowsVerified` is the exact condition for a source that might break the rule, and
`KillTheorems.UncheckedRowExample` shows what it would cause.

Where the code and its comments differ, the model follows the code. An empty `Partial` completeness is
merged away (`UncertaintyMerge.EmptyPartialIsForgotten`); in `apply_network_snapshot` the branch that
marks a refresh in flight as stale is never taken, because the worker slot is always empty there
(`App.Application.ApplySnapshot` requires it and every caller establishes it); and `ScopeDto::new`
cannot refuse, because there are no more limitations than it admits (`PublicOutput.RenderScope`).

## Model

| member | source | states |
|---|---|---|
| `SocketOrder.SocketLawful` | src/watch.rs:599-647 | `compare_socket` is a total preorder, and two sockets tie exactly when they agree on everything but the creating UID |
| `Observation.EndpointLawful` | src/observation.rs:113-127 | endpoint comparison is a total order whose ties are equal endpoints |
| `Observation.GapLawful` | src/observation.rs:412-433 | gap comparison is a total order whose ties are equal gaps |
| `Observation.CompletenessLawful` | src/observation.rs:1337-1360 | owner-completeness comparison is a total order whose ties are equal values |
| `OrderTheorems.EndpointOrder` | src/observation.rs:113-127 | endpoints sort by protocol, address, scope and port, each in the direction spelled out |
| `OrderTheorems.StateOrder` | src/watch.rs:599-612 | the native states sort as listed, unknown ones last by code |
| `OrderTheorems.TokenOrder` | src/watch.rs:614-625 | a missing token comes last, otherwise kind and number decide |
| `OrderTheorems.SocketsInOrder` | src/watch.rs:599-647 | sockets sort by endpoint, state, token, owner evidence, owners and timer, in that order |
| `OrderTheorems.EventsInOrder` | src/watch.rs:649-700 | events sort by endpoint, state, kind of event, and then the evidence of both sides of a replacement |
| `OrderTheorems.CompletenessOrder` | src/observation.rs:1337-1360 | complete owner sets before partial ones before raced ones, partial ones by their reasons |
| `OrderTheorems.PublicOwnerOrder` | src/public_output.rs:774-806 | public owners sort verified first, then by PID, start marker and the published name of the reason |
| `OrderTheorems.NamesAscend` | src/observation.rs:374-388 | evidence codes sort as their published names do |
| `Pairing.OnlyFirstIsDifference` | src/watch.rs:446-473 | what the merge walk leaves over on one side is exactly the one-sided multiset difference |
| `Pairing.OnlyFirstBalance` | src/watch.rs:446-473 | the walks over the two sides skip the same number of pairs, so the two counts never disagree |
| `Watch.SortIndices` | src/watch.rs:226-258 | sorting positions by `compare_socket` yields a sorted view holding every socket once |
| `Watch.BuildReadiness` | src/watch.rs:165-200 | the readiness built by the loop is the set of endpoints whose ownership evidence is incomplete |
| `Watch.BucketEnd` | src/watch.rs:531-542 | the scan stops exactly at the end of the first bucket |
| `Watch.SnapshotDiff.CountRemaining` | src/watch.rs:446-474 | both counts are the sizes of the two one-sided leftovers of the bucket |
| `Watch.SnapshotDiff.AdvanceCursor` | src/watch.rs:301-356 | one cursor step consumes at least one position and loses nothing of the leftover still to be reported |
| `Watch.SnapshotDiff.NextRemainderIndex` | src/watch.rs:301-356 | the resumable second walk hands out the leftover one element at a time, after the paired ones, and ends when it does; it agrees with the count taken earlier |
| `Watch.SnapshotDiff.ReconcileBucket` | src/watch.rs:403-444 | what a bucket leaves pending, replacement or cursor, is the eager comparison of that bucket |
| `Watch.SnapshotDiff.PrepareNextBucket` | src/watch.rs:358-401 | skips silent buckets, changes nothing of the remaining stream, and finds an event unless the stream is over |
| `Watch.SnapshotDiff.NextEvent` | src/watch.rs:260-299 | returns the head of the remaining eager stream and leaves its tail |
| `Watch.SnapshotDiff.Next` | src/watch.rs:476-490 | the iterator yields the stream in order; each event past the limit becomes an error |
| `Watch.SnapshotDiff.Drain` | src/watch.rs:476-490 | calling the iterator until it stops yields the whole eager stream, one result per event |
| `Watch.WithLimit` | src/watch.rs:218-258 | refuses exactly when either snapshot raced or lost or omitted part of its socket set; otherwise the remaining stream is the eager diff of two sorted views |
| `Watch.DiffSnapshots` | src/watch.rs:218-258 | for snapshots within the collection limit every event of the eager diff arrives and the event limit is never met |
| `DiffTheorems.BucketSurplus` | src/watch.rs:403-474 | a bucket reports one replacement when its single socket changed hands, otherwise the last elements in sorted order of the one-sided multiset difference of its longer side |
| `DiffTheorems.BucketExact` | src/watch.rs:358-401 | the stream seen through one endpoint and state is the comparison of just those sockets |
| `DiffTheorems.Conservation` | src/watch.rs:403-444 | previous count minus releases plus binds is the current count for every endpoint and state, and no bucket reports both |
| `DiffTheorems.DiffMirror` | src/watch.rs:218-474 | swapping the snapshots mirrors the stream event by event, with the same certainty |
| `DiffTheorems.DiffOrdered` | src/watch.rs:649-700 | the stream is nondecreasing under `compare_event_prefix` |
| `DiffTheorems.DiffWithin` | src/watch.rs:14-17 | the stream is no longer than both snapshots together and only reports their sockets |
| `DiffTheorems.StreamIgnoresOrder` | src/watch.rs:226-258 | reordering the sockets or gaps of either snapshot leaves the stream unchanged up to the creating UID |
| `DiffTheorems.SilentExactly` | src/watch.rs:403-444 | a poll is silent exactly when every bucket keeps its size and no single socket changed hands |
| `DiffTheorems.CertaintyMeaning` | src/watch.rs:544-597 | a socket provably changed hands exactly when both snapshots settle the owners of its endpoint and each ties it to one verified owner, and these differ; Proven for two generations of one PID, else Heuristic |
| `DiffTheorems.ReplacementExactly` | src/watch.rs:403-444 | exactly when the stream holds a given replacement, in terms of the two snapshots alone |
| `DiffTheorems.EventKinds` | src/watch.rs:260-299 | every event is a certain release of an earlier socket, a certain bind of a later one, or a replacement within one bucket |
| `DiffTheorems.SelfDiffSilent` | src/watch.rs:599-605 | a snapshot compared with any reordering of itself yields nothing |
| `DiffTheorems.ReadinessIgnoresOrder` | src/watch.rs:165-200 | replacement readiness depends on the evidence, not on its order |
| `Watch.BaselineEvents.Next` | src/watch.rs:493-529 | the baseline iterator reports each socket once, in sorted order |
| `Watch.BaselineOf` | src/watch.rs:499-511 | every socket of a comparable snapshot once, in order, as a certain baseline event; refused exactly otherwise |
| `NativePass.RowLawful` | src/observation.rs:1046-1060 | row comparison is a total order |
| `PassComparison.SocketGroupEnd` | src/observation.rs:1550-1556 | finds the end of the run of rows of one native socket |
| `PassComparison.GroupOwnerPids` | src/observation.rs:1436-1443 | the sorted owner PIDs of a group stand for its multiset of owner PIDs |
| `PassComparison.IdentitiesEqual` | src/observation.rs:1451-1459 | true exactly when both passes tie the same PIDs to the same start markers |
| `PassComparison.CompareRows` | src/observation.rs:1362-1420 | the grouped merge finds exactly the sockets whose multiplicity or owner PIDs differ |
| `PassComparison.ComparePasses` | src/observation.rs:1362-1434 | the instability report: socket set, ownership and the affected sockets are exactly what differs, marker changes included |
| `PassComparison.StableExactly` | src/observation.rs:1193-1203 | the comparison is stable exactly when multiplicities, owner-PID multisets and start markers all agree |
| `PassComparison.UnaffectedAgrees` | src/observation.rs:1362-1434 | a socket not reported as affected was seen equally often with the same owners and generations |
| `PassComparison.CanonicalGroups` | src/observation.rs:1259-1335 | sorting rows and PIDs keeps each socket's rows and its owner-PID multiset |
| `UncertaintyMerge.MergeIsJoin` | src/observation.rs:1558-1577 | merging completeness is a join: a race absorbs, reasons accumulate, and only two complete operands built by `OwnerCompleteness::partial` give a complete result |
| `UncertaintyMerge.MergeFailsExactly` | src/observation.rs:500-514 | merging fails exactly when neither side raced and the joined reasons exceed the limit |
| `UncertaintyMerge.EmptyPartialIsForgotten` | src/observation.rs:1558-1577 | an empty partial operand is turned into complete: the join law needs nonempty reasons, exactly |
| `UncertaintyMerge.MergeRows` | src/observation.rs:1477-1515 | each row of the second pass takes over the doubts of its whole group in the first and nothing else changes; it fails only when there are too many reasons |
| `UncertaintyMerge.MergeGaps` | src/observation.rs:1516-1545 | every gap of either pass is kept, subsumed by an aggregate of at least its count, or counted as omitted; none is invented; the budget holds |
| `UncertaintyMerge.MergeAttemptUncertainty` | src/observation.rs:1477-1548 | the merged pass: joined global doubts, merged rows, conserved gaps and omission counts; it fails only when there are too many reasons |
| `Publication.PushAllKeepsPrefix` | src/observation.rs:1922-1928 | however pushes interleave, the first gaps up to the limit are retained and the rest are counted |
| `Publication.ReadOwners` | src/observation.rs:1759-1827 | owners, local doubts and one gap for every unverified owner edge; joining them never fails |
| `Publication.MaterializeSocket` | src/observation.rs:1759-1827 | a published socket carries the row's identity, its owners in order, and the join of its own and its owners' doubts, or Raced when affected |
| `Publication.MaterializeSockets` | src/observation.rs:1759-1827 | every row is published, in order, and the gap of every unverified owner edge is pushed |
| `Publication.Retain` | src/observation.rs:1863-1920 | one optional field is kept or dropped by length and remaining budget; the running total stays within the budget and every drop leaves a gap |
| `Publication.ApplyProcessMetadataBudget` | src/observation.rs:1863-1920 | the four fields are judged in order against one running total; each dropped field leaves one gap and marks the process |
| `Publication.MaterializeProcesses` | src/observation.rs:1690-1750 | every verified read is published with exactly the fields that fit what the earlier processes left of the aggregate budget, which is never exceeded, and its gaps are pushed in order |
| `Consistency.GlobalDoubtsStep` | src/observation.rs:1579-1620 | the completeness of the owner map is the join of the merged passes' own doubts and every unverifiable read |
| `Consistency.BuildSnapshot` | src/observation.rs:1579-1688 | the published snapshot: retained gaps sorted without repeats, exact omission count, sockets, processes and derived completeness; it fails only when there are too many reasons |
| `ConsistencyTheorems.CompleteExactly` | src/observation.rs:1930-1950 | a snapshot is Complete exactly when both raw passes agree, neither raised any doubt, gap or omission, every owner was verified, and the second pass's metadata was complete and within every length and total limit |
| `ConsistencyTheorems.KeptExactly` | src/observation.rs:1863-1920 | judging fields and processes one after another loses nothing exactly when every field fits its own limit and the grand total fits the budget |
| `ConsistencyTheorems.UnracedSocketAgrees` | src/observation.rs:1759-1827 | even in a raced attempt, a socket not marked Raced was seen in both passes with the same count, owners and owner generations |
| `ConsistencyTheorems.LostMetadataRecorded` | src/observation.rs:1863-1928 | metadata dropped for the budget marks its process and is in the snapshot's gaps or its omission count |
| `ConsistencyTheorems.UnverifiedOwnerReported` | src/observation.rs:1759-1836 | an owner that could not be verified is published with its reason, leaves its socket raced or partial for that very reason, and has its own gap or is among the omitted |
| `ConsistencyTheorems.RaceReported` | src/observation.rs:1579-1620 | a raced snapshot names what raced, socket set or ownership, unless gaps were omitted |
| `ConsistencyTheorems.PartialMetadataReported` | src/observation.rs:1690-1750 | a published process with incomplete metadata has a metadata gap about it or is among the omitted |
| `ConsistencyTheorems.NoGaps` | src/observation.rs:1579-1688 | gaps and omissions vanish exactly when neither pass raised any and publication added none |
| `Collection.CollectPass` | src/observation.rs:1259-1335 | one pass: its table and its process reads are the source's answers in two consecutive calls; canonical, honest and within every limit, or refused with the exact reason |
| `Collection.RefusedExactly` | src/observation.rs:1259-1300 | a native table is refused exactly for too many sockets, reasons or gaps |
| `Collection.CollectPasses` | src/observation.rs:1213-1257 | the two passes of one attempt are answers of the source in four consecutive calls, identities first, within both read budgets |
| `Collection.CollectAttempt` | src/observation.rs:1213-1257 | one attempt reads, compares and merges two passes, or fails with a cause |
| `Collection.CollectConsistent` | src/observation.rs:1205-1257 | a result is backed by the two passes and the two clock readings the source gave in its final attempt; a second attempt is made only when the two passes of the first disagreed, and only it is published as raced; identity reads stay within both budgets; every failure is the source's own, an exceeded limit, too many reasons, or a clock that ran backwards |
| `Collection.CollectedSnapshotMeaning` | src/observation.rs:1205-1257 | Complete and Raced read back to what both passes saw, and every published bound holds |
| `KillGate.EvaluateAuthority` | src/collector.rs:117-175 | the accumulated authority is the strongest refusal any evidence demands |
| `KillGate.KillPortsFromSnapshot` | src/collector.rs:104-175 | malformed requests, each refusal and each grant get their own answer |
| `KillGate.ProjectTarget` | src/observation.rs:814-889 | the rows of the target, or the projection limit exactly when there are too many |
| `KillGate.DecisionMonotone` | src/collector.rs:182-195 | adding sockets or gaps never turns a refusal into a grant, although added sockets enlarge the matched endpoints |
| `KillGate.DecisionIgnoresOrder` | src/collector.rs:117-175 | the refusal chosen does not depend on socket or gap order |
| `KillGate.PortGrantExactly` | src/collector.rs:208-348 | a port kill is granted exactly when nothing raced or was omitted, every TCP listener and bound UDP socket on the port has a nonempty, verified, complete owner set, and every gap that lost sockets or owners names an endpoint on another port |
| `KillGate.PidGrantExactly` | src/collector.rs:208-348 | a process kill is granted exactly when nothing raced or was omitted, every listening TCP or bound UDP socket naming the process is complete with verified edges to it, and every gap provably spares the process and those sockets |
| `KillGate.PortRefusalExactly` | src/collector.rs:146-175 | exactly when a port kill is refused as raced, and when as denied, from the sockets and gaps alone |
| `KillGate.PidRefusalExactly` | src/collector.rs:146-175 | exactly when a process kill is refused as raced, and when as denied |
| `KillGate.GapMeaning` | src/collector.rs:308-348 | a gap applies to a target exactly when it does not provably spare it, by its impact, endpoint and PID |
| `KillTheorems.RawGapsPublished` | src/observation.rs:1477-1548 | a snapshot that omitted nothing covers every gap of both raw passes |
| `KillTheorems.GrantedPortKill` | src/collector.rs:117-175 | whatever the source, a granted port kill on a collected snapshot: both passes agreed, saw every socket holding the port alike with each owner tied to one generation, and raised no gap that could concern the port |
| `KillTheorems.GrantedOwnersUnique` | src/collector.rs:208-250 | after a grant a PID on the port names one process generation |
| `KillTheorems.OpenIsHeld` | src/platform/linux.rs:902-938 | with tables in the states the adapters give sockets, every listening or bound socket of a collected snapshot is one the gate judges |
| `KillTheorems.GrantedPortHeld` | src/collector.rs:117-175 | with such tables, after a grant every listening or bound socket on the port has a nonempty, fully verified, complete owner set seen alike by both passes, and every projected row names an owner both tie to one generation |
| `KillTheorems.GrantedPidKill` | src/collector.rs:208-348 | a granted process kill on a collected snapshot: both passes agreed, saw every socket the process holds open alike with all its owners tied to one generation, and raised no gap about the process or those sockets |
| `KillTheorems.GrantedPidHeld` | src/collector.rs:117-175 | with such tables, after a grant every projected row is the process itself, in the one generation both passes saw |
| `KillTheorems.CollectKillPorts` | src/collector.rs:104-110 | collecting, judging and projecting in one call: rows come back only from a snapshot two agreeing passes of the source back, and with adapter-built tables the generation of every row's owner is the source's own answer in two separate calls; a failure is the collection's own or the gate's answer |
| `KillTheorems.ProjectedExactly` | src/observation.rs:814-889 | the projection lists exactly the owner edges, or the ownerless socket, of every open socket of the target |
| `KillTheorems.ProjectedInOrder` | src/observation.rs:814-889 | the projection keeps snapshot order and lists every socket and owner once |
| `KillTheorems.UnverifiedOwnerRefused` | src/collector.rs:250-300 | an owner of the port that could not be verified refuses the kill, as a permission problem when that was the reason, unless something raced |
| `KillTheorems.GrantedRowsVerified` | src/collector.rs:117-175 | whatever the source, after a grant every projected row names a verified owner exactly when the open sockets the gate does not judge have only verified owners |
| `KillTheorems.UncheckedRowExample` | src/collector.rs:208-250 | what a source breaking the adapters' rule would cause: a bound TCP socket without an owner is projected under a grant |
| `QueryModel.RowOrderStrict` | src/query.rs:453-508 | with the source index as last tie-break every sort mode is a strict total order |
| `QueryModel.SortFilterCommute` | src/query.rs:184-221 | filtering a sorted list is sorting the filtered list |
| `QueryModel.PreorderedAgrees` | src/query.rs:184-221 | filtering the sorted permutation gives the indices and the hidden count of a fresh query, for every mode and filter |
| `QueryModel.UnfilteredIsDisplayOrder` | src/query.rs:115-182 | an unfiltered query shows the whole display order |
| `QueryTheorems.FreshSelects` | src/query.rs:115-182 | a query returns exactly the visible rows that meet every condition |
| `QueryTheorems.PreorderedSelects` | src/query.rs:188-221 | filtering a preordered list returns exactly the listed visible rows that meet every condition |
| `QueryTheorems.StructuredTerm` | src/query.rs:710-742 | with a structured term only rows whose own field says so are returned, and with that term alone all visible ones are |
| `QueryTheorems.NamedTerms` | src/query.rs:710-742 | a label term searches the configured label, a parent term the parent PID or name |
| `QueryTheorems.OppositeTerms` | src/query.rs:710-742 | the two address families, and the two protections, share the visible rows between them |
| `QueryTheorems.NamedRefinesPlain` | src/query.rs:710-775 | a parent or label term returns nothing its text alone would not |
| `QueryTheorems.PlainExactly` | src/query.rs:744-775 | a plain term selects a row when one of its facts or texts contains the needle, or, for a needle with a colon, its printed endpoint does |
| `QueryTheorems.ContainsExactly` | src/query.rs:826-834 | a needle is found exactly when the text can be cut around it |
| `QueryTheorems.DecimalReadsBack` | src/query.rs:820-824 | numbers are searched as digits that read back as the number, without leading zeros |
| `QueryTheorems.RefusedExactly` | src/query.rs:325-354 | when a query is refused, and with which error |
| `QueryTheorems.HiddenCounted` | src/query.rs:188-221 | the hidden count is the number of system processes when they are hidden |
| `QueryTheorems.SortedByMode` | src/query.rs:115-182 | of any two returned rows the earlier leads by the key of the sort mode, and rows alike in it follow port, protocol, address and PID |
| `QueryTheorems.ModesCycle` | src/app.rs:1764-1767 | the six sort modes follow one another in a fixed cycle |
| `QueryEngine.PrepareQuery` | src/query.rs:325-354 | refusals in their order, full-state requests first; otherwise a plan whose cheap and metadata terms together are the query's terms |
| `QueryEngine.DecimalGate` | src/query.rs:231-247 | a number can only contain a needle made of digits |
| `QueryEngine.GatesInvisible` | src/query.rs:744-775 | skipping numbers and addresses by the needle's shape never changes whether a row matches |
| `QueryEngine.EndpointGateExactly` | src/query.rs:744-775 | the endpoint gate hides exactly the colon-free needles that only the bracketed host of the printed endpoint contains |
| `QueryEngine.BracketsAddScope` | src/query.rs:777-805 | without brackets or a percent sign in the needle, the bracketed host adds only the scope text to the address |
| `QueryEngine.MatchTerm` | src/query.rs:710-742 | each prepared term means its plain condition, through the cache |
| `QueryEngine.EntryMatches` | src/query.rs:422-451 | the planned, reordered, cached test is the plain conjunction of the query's conditions |
| `QueryEngine.QueryViewIndices` | src/query.rs:115-182 | the engine, with compact keys, gates and caches, computes the fresh query |
| `QueryEngine.FilterPreorderedIndices` | src/query.rs:188-221 | the engine filters a preordered list as the plain definition does |
| `QueryCaches.NormalizationCache.Key` | src/query.rs:968-993 | a text keeps the key it got first wherever it is borrowed from, the key's value is its lowercase, and no stored value moves |
| `QueryCaches.MetadataMatchCache.ContainsText` | src/query.rs:891-956 | every lookup answers the direct substring test, in all three modes |
| `QueryCaches.RememberSound` | src/query.rs:924-956 | stored matches stay true and never exceed the limit |
| `Display.StripAnsiSequence` | src/display.rs:120-165 | the scanner consumes exactly one escape sequence |
| `Display.SanitizeWithLayout` | src/display.rs:82-110 | the scanner shows exactly what the recursive definition says, and terminates |
| `Display.SanitizedHarmless` | src/display.rs:47-63 | no control and no default-ignorable scalar is shown, except newlines in multiline mode |
| `Display.NothingDeceptive` | src/display.rs:170-200 | no escape, bidirectional control, zero-width character or tag is ever shown |
| `Display.PlainText` | src/display.rs:82-110 | text without escapes is shown character by character: whitespace controls as spaces, other unprintable characters replaced, the rest unchanged |
| `Display.UnchangedExactly` | src/display.rs:47-63 | a text is left alone exactly when it was harmless |
| `Display.SanitizeIdempotent` | src/display.rs:59-67 | sanitizing twice is sanitizing once |
| `Display.CsiVanishes` | src/display.rs:138-154 | a complete control sequence in the form of section 5.4 of ECMA-48 vanishes, and the text around it is shown as if it had not been there |
| `Display.ControlStringVanishes` | src/display.rs:120-136 | a terminated control string vanishes with everything inside it |
| `Display.ShortEscapeVanishes` | src/display.rs:156-165 | an escape of intermediates and one final character vanishes |
| `Display.BrokenCsiResumes` | src/display.rs:138-154 | a broken control sequence takes only what belongs to it: the first character that does not is shown |
| `Display.BrokenShortResumes` | src/display.rs:156-165 | a broken short escape takes only its intermediates: the first character that does not belong to it is shown |
| `Display.OpenStringSwallows` | src/display.rs:120-136 | a control string that never ends takes the rest of the text with it |
| `Display.SanitizeBounded` | src/display.rs:69-80 | the longest sanitized prefix within the byte bound, cut between scalars |
| `Display.BoundedHarmless` | src/display.rs:69-80 | bounding keeps every promise of sanitizing, and cuts exactly the texts that are too long |
| `Display.BoundedShown` | src/display.rs:69-80 | whatever the text, its bounded form is a harmless prefix of its sanitized form within the bound |
| `Display.BytesOfEncoding` | src/display.rs:69-80 | byte lengths are those of the UTF-8 encoding |
| `KillTargets.ConfirmationSurvives` | src/process.rs:661-683 | what confirms a protected target does not depend on displayed context |
| `KillTargets.TrimNoEdge` | src/process.rs:441-445 | trimming leaves no edge whitespace and is idempotent |
| `KillTargets.ProtectedAnswerVisible` | src/process.rs:441-445 | blank input never confirms a protected process; what does is its PID or harmless visible text |
| `KillTargets.AnswersExactly` | src/process.rs:661-683 | what confirms each prompt: y or yes in any case, the word force, or for a protected process its PID or its name as shown |
| `KillTargets.WordExactly` | src/app.rs:1153-1190 | a tree kill is confirmed by the word force or tree, as its mode demands |
| `KillTargets.TrimExactly` | src/process.rs:661-683 | trimming takes whitespace from both ends and nothing else |
| `KillTargets.SpaceExactly` | src/process.rs:661-683 | which ASCII characters count as whitespace |
| `KillTargets.TargetExactly` | src/process.rs:360-440 | a target is protected when one of its rows is, holds every port a row names, and has the generation all rows agree on |
| `KillTargets.SingleEvidenceExactly` | src/process.rs:758-800 | the last evidence check in front of a single signal, on the two targets alone |
| `KillTargets.RootExactly` | src/tree/plan.rs:123-130 | the root of a preview is its first node at depth zero |
| `KillTargets.RevalidatedExactly` | src/process.rs:729-756 | a target passes revalidation exactly when fresh rows show the confirmed process and generation on every confirmed port, none unowned, under the confirmed name and not newly protected |
| `KillTargets.RevalidationRefusals` | src/process.rs:729-756 | which refusal a failed revalidation gives |
| `KillTargets.RevalidatedSame` | src/process.rs:685-716 | a revalidated target has the confirmed PID, generation, ports and name |
| `KillTargets.TreeGatesExactly` | src/app/tree_action.rs:64-87 | a tree passes exactly when the scan is complete, touches nothing unsafe, nothing protected below the root, and a protected root was confirmed |
| `KillTargets.PreflightRefusals` | src/tree/plan.rs:216-240 | which refusal a preview gives: truncation first, then a forbidden process, then a protected descendant |
| `AppView.QueryTable` | src/app.rs:1552-1614 | reusing a fitting permutation or querying afresh shows the same rows, and the cache stays the display order of its mode |
| `AppView.PreservedSelection` | src/app/helpers.rs:98-116 | the selection stays on the first visible row with its key, else at its clamped position |
| `AppView.SameKeyExactly` | src/app.rs:1552-1614 | two rows are the same to the selection exactly when process and socket are |
| `AppView.RereadKeeps` | src/app.rs:1704-1715 | a context read over unchanged rows neither changes who a target is nor protects it anew |
| `App.Application.RebuildPreserving` | src/app.rs:1552-1614 | the visible rows are the fresh query of the current rows, or empty under its error; the selection follows its row |
| `App.Application.EnsureSorted` | src/app.rs:1521-1550 | afterwards the cache is the display order of the current rows for the current mode |
| `App.Application.SelectNext` | src/app.rs:784-790 | the selection moves down and stays in bounds |
| `App.Application.SelectPrevious` | src/app.rs:792-797 | the selection moves up and stays in bounds |
| `App.Application.AppendSearch` | src/app.rs:1734-1744 | the filter grows within its byte limit and the table follows it |
| `App.Application.BackspaceSearch` | src/app.rs:1746-1753 | the filter loses its last character and the table follows it |
| `App.Application.CancelSearching` | src/app.rs:1755-1762 | search ends, the filter empties and the table follows it |
| `App.Application.CycleSorting` | src/app.rs:1764-1767 | the next sort mode applies and the table follows it |
| `App.Application.LoadSelectedContext` | src/app.rs:1617-1686 | the selected row's details are on display, on their way, queued, or reported as failed |
| `App.Application.DeliverContext` | src/app.rs:411-440 | details reach the selected row exactly when they were read for it and its generation, and an open confirmation only for its own process and generation |
| `App.Application.PollProcessContext` | src/app.rs:391-442 | an answer read for the selected row and its generation reaches it, a stale read never touches an open confirmation, and every invariant survives every answer |
| `App.Application.ApplyContextTarget` | src/app.rs:1717-1732 | a confirmation takes newer facts and never loses protection |
| `App.Application.Refresh` | src/app.rs:335-359 | at most one refresh is in flight |
| `App.Application.RefreshAfterKill` | src/app.rs:1491-1498 | a refresh in flight is outdated and owes one successor; otherwise one starts |
| `App.Application.PollRefreshWorker` | src/app.rs:361-389 | new rows are shown exactly when the refresh delivered them and was not begun before the latest delivery; draining an outdated one starts the one it owes |
| `App.Application.ApplySnapshot` | src/app.rs:465-498 | new rows replace the table; without open details no read begun on the old rows is live |
| `App.Application.ReplaceRows` | src/app.rs:480-498 | caches and details go, the selection follows its row, an open confirmation keeps its target |
| `App.Application.TickRefresh` | src/app.rs:525-533 | an automatic refresh starts exactly when one is due, none is in flight, no confirmation is open and a thread can be started |
| `App.Application.ApplyNavigation` | src/app.rs:784-797 | what each navigation key changes, and that it leaves the rest alone |
| `App.Application.ApplyRequest` | src/app.rs:799-859 | what each request opens or starts, and that it sends nothing |
| `App.Application.ApplyAction` | src/app.rs:742-782 | each action does what its group of keys does; signals grow only by the answer to the open confirmation |
| `App.Application.ResolveTarget` | src/app.rs:811-833 | the selected process as a target, or the exact reason there is none |
| `App.Application.RequestKilling` | src/app.rs:835-859 | opens exactly for a killable selection, on that process, in the requested mode, with the requirement mode and protection demand |
| `App.Application.RequestTreeKilling` | src/app.rs:979-1001 | one preview scan at a time; when none runs a killable selection opens a confirmation on that process in the requested mode |
| `App.Application.OpenTree` | src/app.rs:995-1028 | the tree confirmation and its preview worker appear together or not at all |
| `App.Application.PollTreePreview` | src/app.rs:1030-1051 | a preview always belongs to the open confirmation: the mismatch branch is never reached |
| `App.Application.ApplyTreePreview` | src/app.rs:1053-1107 | a preview discards typed input and can only raise protection, which restarts at the protected-root stage |
| `App.Application.AppendKill` | src/app.rs:861-891 | over a plain prompt y sends exactly the confirmed kill with that key as its answer, n cancels, any other key does neither; over a typed prompt a key only extends the input within its bound |
| `App.Application.AppendTree` | src/app.rs:1110-1128 | typing waits for the preview and keeps the input bound |
| `App.Application.BackspaceInput` | src/app.rs:893-899 | only the last typed character goes |
| `App.Application.CancelConfirmation` | src/app.rs:931-938 | closes the confirmation and drops the queued details read |
| `App.Application.SubmitKill` | src/app.rs:940-968 | a matching answer sends exactly the confirmed kill; without one nothing is sent |
| `App.Application.SubmitTree` | src/app.rs:1153-1211 | only the word stage of a previewed tree sends, on its own word; the protected-root stage only advances to it, and only on its own answer |
| `App.Application.KeyKill` | src/app.rs:861-968 | what each key does to an open single-process confirmation, and that the logged signal is the answer given |
| `App.Application.KeyTree` | src/app.rs:1110-1211 | what each key does to an open tree confirmation, and that the logged signal is the answer given |
| `App.Application.ExecuteKill` | src/app.rs:1378-1489 | the signal goes out exactly when every gate passes, and a delivery outdates or starts a refresh |
| `App.Application.ExecuteTree` | src/app.rs:1236-1344 | the tree signal goes out exactly when every gate passes, and a delivery outdates or starts a refresh |
| `App.SingleAuthorized` | src/app.rs:1440-1472 | passing every gate from a consistent confirmation authorizes a single kill: the process the confirmation opened on, its generation and ports, and the answer its protection demanded |
| `App.TreeAuthorized` | src/app.rs:1284-1324 | passing every gate authorizes a tree kill: a protected root, however it became known, was typed before the scope word |
| `App.Application.constructor` | src/app.rs:280-323 | the first state satisfies every invariant, whatever the first collection answers |
| `App.Application.Handle` | src/app.rs:742-782 | every event keeps every invariant; only an action can send, at most one signal, and it answers the confirmation that was open |
| `App.Application.Run` | src/ui/mod.rs:720-788 | over every run: the table is the fresh query, protected targets demand their confirmation, no outdated refresh can be shown, every signal sent was authorized, and a confirmation still open at the end is the one open at the start, with its kind, process and protection, unless another was opened |
| `AppTheorems.AuthorizedIsGrounded` | src/app.rs:1378-1489 | behind every logged signal: fresh evidence shows the process the confirmation opened on, it is none of the forbidden PIDs, and the user typed what its mode and protection demand |
| `AppTheorems.SingleDeliveredExactly` | src/app.rs:1440-1472 | exactly when a confirmed single kill is sent |
| `AppTheorems.TreeDeliveredExactly` | src/app.rs:1284-1324 | exactly when a confirmed tree kill is sent |
| `AppTheorems.TableExactly` | src/app.rs:1552-1614 | the visible rows are exactly those the filter text selects, without the hidden ones |
| `AppTheorems.TableOrder` | src/app.rs:1552-1614 | the visible rows stand in the order of the sort mode, each once |
| `ProcessTree.ChildrenOrdered` | src/inspect.rs:471-485 | children are the nodes naming the parent, in ascending PID order |
| `ProcessTree.IndexChildren` | src/inspect.rs:471-485 | the child map holds every parent's children in order |
| `ProcessTree.OrderedTreeNodes` | src/inspect.rs:471-502 | the explicit stack emits exactly the first nodes of the recursive preorder; on a cyclic table it still stops at the bound, parents first |
| `ProcessTree.PreorderIsWholeTree` | src/inspect.rs:471-502 | the preorder of a planned tree shows every process exactly once |
| `ProcessTree.AncestorsOf` | src/inspect.rs:604-626 | follows parent links, never repeats a PID or meets the target, is bounded, and stops early only when it cannot be extended |
| `ProcessTree.ChainUnique` | src/inspect.rs:604-626 | the chain of a given length is determined by the table |
| `TreePlan.AddChildren` | src/tree/plan.rs:292-306 | every unseen child joins the tree and the frontier, until the limit |
| `TreePlan.PlanProcessTree` | src/tree/plan.rs:267-319 | the preview is a tree rooted at the requested process, nearest first, each node with its parent and protection from the table, and it misses no descendant unless it says so |
| `TreePlan.PlannedKillIsWhole` | src/tree/plan.rs:216-236 | a complete preview that passed the preflight holds every descendant of its root once, none unsafe, none protected below the root |
| `WorkerPermits.StepKeeps` | src/docker.rs:420-466 | every atomic step keeps the counter equal to the live permits and within the maximum |
| `WorkerPermits.StepRefines` | src/docker.rs:434-455 | each step is one step of an indivisible counter: grants fit, refusals are justified at that moment, no drop underflows |
| `WorkerPermits.AllOrNothing` | src/docker.rs:434-455 | a reservation takes all its permits in one step or nobody's change |
| `WorkerPermits.RunRefines` | src/docker.rs:420-466 | every interleaving of any number of threads, spurious failures included, is a history of the indivisible counter |
| `WorkerPermits.PermitsBounded` | src/docker.rs:420-466 | from a fresh counter there are never more permits than the maximum |
| `WorkerPermits.ReadOutputBounded` | src/docker.rs:682-708 | keeps the first bytes up to the bound, says exactly whether there was more, and takes at most one byte past the bound from the pipe |
| `PublicOutput.PublicOwnerLawful` | src/public_output.rs:774-806 | owner comparison is a total order whose ties are equal owners |
| `PublicOutput.DtoLawful` | src/public_output.rs:827-910 | record comparison is a total order, and records that tie serialize the same fields |
| `PublicOutput.ContentDecidesDto` | src/public_output.rs:513-532 | a record depends on a socket only through its content: sorting and truncating owners forgets their order |
| `PublicOutput.RecordExactly` | src/public_output.rs:263-308 | a record shows its socket's own fields, at most sixty-four owners and the number of the others, and every reason once, by name |
| `PublicOutput.ShownFirst` | src/public_output.rs:263-308 | the owners shown are the first of all owners in public order |
| `PublicOutput.TimerExactly` | src/public_output.rs:544-596 | a timer can be written exactly when its native code belongs to its kind |
| `PublicOutput.GapShown` | src/public_output.rs:328-341 | a gap is shown as it is, with a harmless bounded message |
| `PublicOutput.RenderSockets` | src/public_output.rs:513-570 | every socket once, in order, or the reason limit exactly when one socket exceeds it |
| `PublicOutput.RenderGaps` | src/public_output.rs:551-562 | every gap once, with its message sanitized and bounded, in order |
| `PublicOutput.RenderScope` | src/public_output.rs:349-366 | a scope is shown with its bounded identifier and each limitation once, in order; it is never refused |
| `PublicOutput.SnapshotDocument` | src/public_output.rs:544-596 | the document renders the scope and the snapshot, or the constructor's first refusal is returned |
| `PublicOutput.DocumentCanonical` | src/public_output.rs:544-596 | scopes and snapshots of equal content, in whatever order, give the same document |
| `PublicOutput.RefusalCanonical` | src/public_output.rs:544-596 | snapshots of equal content give the same refusal |

## Left out

- Native collectors, `/proc`, libproc, IP Helper, pidfds, signals and sockets: their answers are parameters (`Collection.ObservationSource`, `App.World`).
- Terminal drawing, key mapping, command-line parsing, help and banner text, exit codes; status, hint and error texts are enumerations, and scroll, redraw and refresh-age fields are dropped.
- Docker CLI spawning, PATH and elevation checks, drain timeouts and the child-cleanup thread.
- JSON bytes: the public document stops at the sequence of records. The legacy list record and the diagnostic records are not modelled.
- `std` sorting and binary search are `Orders.Sort` and membership; every result holds for any sorted permutation because the orders involved have no observable ties. Vectors sorted and truncated in place inside `public_output.rs` constructors are values here.
- Lowercasing, address text, address normalisation and the parsed filter are inputs (`QueryModel.Env`, `Options.filter`); the filter is assumed to yield nonempty lowercase needles, as parsing does. State filters cannot reach the list engine and have no term.
- Executable paths that are not UTF-8 count as absent in a query row.
- Labels and process protection are fixed functions of a row; system-process classification is a field of a row.
- Optional process text carries only its byte length in `Publication`, because budgets read nothing else.
- Evidence-gap codes and unverified reasons are compared by the rank of their serialized names, which is what comparing the names gives.
- Event sides keep their socket and drop the pointer to its snapshot; an event's multiplicity is always one.
- The observation scope is a value of its own beside the snapshot (`PublicOutput.ObservationScope`); collection passes it through untouched.
- `Collection.CollectConsistent`: adapters are assumed to build partial completeness with nonempty reasons and to count omissions in 64 bits, as their constructors do.
- `App.Application.Run`: models the Linux and macOS build, where the tree confirmation exists and a protected name must match exactly; Windows name matching is not part of this model.
- `App.Application.ExecuteTree`: the freeze, verify and signal pipeline behind a tree kill is one delivery; its refusals after freezing are not modelled.
- The final evidence check inside the platform's termination call is not modelled; a call counts as a delivery whatever it answers.
- Wall-clock values beyond the order of start and completion, refresh intervals and animation.
- `WorkerPermits.RunRefines`: atomics are sequentially consistent; memory orderings are not modelled.
- `ProcessTree.OrderedTreeNodes`: on tables that are not layered only the bound, the parent order and membership are stated, since there is no tree to compare with.
- Process-group planning, signalling order, label lookup, configuration, release-archive paths and the settle loop, which would only add easy members.
