# Verified models of a simulation and tooling repository

A Dafny model of the self-contained algorithms and state machines of this ns-3 based repository, with proofs
of what they promise. `dafny verify dfyconfig.toml` checks the whole project.

| module | models |
|---|---|
| `Digraph` | walks, cycles and topological orders of finite graphs, shared by the next three |
| `Topsort`, `TopsortLevels` | Kahn's algorithm over (parent, child) pairs, as one list and as dependency levels |
| `FindCycles` | enumeration of all simple cycles up to rotation, with the visited-start shortcut |
| `WorkerPool`, `WorkerRuns`, `WorkerActions` | the test runner's threads: every interleaving of main thread, N workers and an interrupt, and the outcome told from the actions |
| `EdgeAllocation`, `EdgeGlobalLaw`, `EdgeServerLaw`, `EdgeSteps`, `EdgeManager` | which edge server holds which user: the laws over all runs, what each step does entry by entry, and the mutable tables |
| `Matriz`, `CellAttachment`, `AttachmentRuns`, `AttachmentTables` | the flat row-major matrix and the serving-cell tables kept in it |
| `Handover`, `HandoverScheduler` | handover policies and the request scheduler: theorems over all runs, and the mutable tables |
| `X2Addresses`, `X2Links`, `X2Entries`, `X2Matrix` | linking every pair of base stations, and finding the ends of the links back from their addresses |
| `Gather` | the recursive gatherer of configuration paths over a labelled type graph |
| `Patchset`, `PatchRoundTrip`, `ParserMeaning` | the unified-diff subset: printer, parser, when they are inverse, and what the parser accepts and returns for any text |
| `Genetic` | the genetic optimiser with elitism, on mutable vectors |
| `BinaryStrings` | binary strings through a hexadecimal table, and a ripple counter |
| `Timeline` | binary searches over disjoint ranges and over events, against linear filters |

State that the program updates in place is a class (`Tables`, `Attachments`, `Matrix`, `Scheduler`,
`StaticInformation`, the vectors of `Genetic`) whose methods are proved to make the step of a function on values;
the theorems over whole runs are lemmas about that function.

## Findings

- Server allocation outside "greedy" and "qos": the per-server law (free units plus seated users equal ten) holds in
  every reachable state exactly when migration is off, there is one server, there are at most ten users, or the
  required latency is at least 1 and the users are strictly fewer than the capacity (`PerServerLawIff`). Otherwise
  the manager can pick a full winner, `migrate` fails, and `edgeUe` is rewritten all the same.
- The global law (free units plus active users equal the capacity) holds under every algorithm exactly when the
  capacity fits the 16-bit counters (`GlobalLawIff`). Beyond that, one connected user whose "greedy" handovers out of
  cell 0 keep failing drains the other servers into server 0 until its counter wraps.
- The "iuavbs" policy looks for the strongest drone but hands over to the first one above the zero level, because it
  asks inside its loop (`IuavbsTakesFirstDrone`, with a concrete report in `IuavbsMissesStrongest`).
- The per-second limit lets one more handover through than its constant says. The constant is kept by every run exactly
  when there are at most three users, or nothing asks for handovers: they are disabled, the policy is none of the three,
  or there is no other cell to go to (for "iuavbs": no drone) (`WithinLimitIff`).
- `populate_x2_matrix` records both ends of every link exactly when every address has host number 1 or 2 and belongs to
  one station, every network has its other end at another station, and no two networks join the same stations
  (`AllRecordedIff`). An interface without a counterpart overwrites what its station recorded for station 0
  (`DanglingOverwrites`), and two parallel links can leave ends of different networks (`ParallelLinksMix`). The links
  that `AddX2Interface` sets up meet the condition (`InstallX2`).
- `get_ranges` returns nothing for a window whose ends lie in gaps, even if ranges lie inside it
  (`EnclosedRangeIsLost`), so that two ends in gaps are answered correctly only in the same gap; `CutIffExact` and `NothingLostIff` say exactly when its answer is the linear filter and
  when it at least loses nothing.
- Printing and parsing patches is lossless exactly for clean patch sets (`RoundTripIffClean`).
- `binary_range(0)` is empty although there is one string of width zero.
- The tuple assignment in `crossover` reads like a swap, but on numpy row views it copies the right row into the left
  one (`CrossRows`); the properties of the optimiser do not depend on it.

## Model

| member | source | states |
|---|---|---|
| Topsort.Tabulate | bindings/python/topsort.py:77-90 | both dictionaries describe the multigraph of the pair list: duplicate pairs count twice, every element is a key |
| Topsort.KnockDown | bindings/python/topsort.py:100-103 | counts drop by the number of listings, and exactly the children that reach zero are reported, once each |
| Topsort.Release | bindings/python/topsort.py:98-106 | taking out a parentless vertex leaves tables of the remaining graph; no child lookup fails, not even with self pairs |
| Topsort.RemainderIsBelowCycles | bindings/python/topsort.py:108-111 | when nothing parentless is left, the sorted elements are exactly those not on or below a cycle, and something remains iff a cycle exists |
| Topsort.TopSort | bindings/python/topsort.py:77-112 | CycleError iff the relation has a cycle; otherwise each element once, parents before children; on error the sorted part and the tables are exactly those above and below the cycles |
| TopsortLevels.NextDepth | bindings/python/topsort.py:203-215 | the undone vertices with all parents done are exactly those whose longest chain of predecessors has the current length |
| TopsortLevels.ReleaseAll | bindings/python/topsort.py:217-224 | a whole level is taken out of the tables |
| TopsortLevels.LevelsCore | bindings/python/topsort.py:203-232 | level k lists exactly the vertices of longest chain k, for every k; the levels concatenate to a topological order of everything above the cycles; CycleError iff a cycle exists |
| TopsortLevels.Levels | bindings/python/topsort.py:157-172 | the same from a pair list |
| FindCycles.IsRotated | bindings/python/rad_util.py:761-775 | true iff one sequence is a rotation of the other; IndexError exactly for two empty sequences |
| FindCycles.RotationSymmetric | bindings/python/rad_util.py:735-775 | being a rotation is symmetric |
| FindCycles.RotationTransitive | bindings/python/rad_util.py:735-775 | and transitive, so that "up to rotation" is well defined |
| FindCycles.IsDuplicate | bindings/python/topsort.py:370-375 | the duplicate test is exact |
| FindCycles.Visit | bindings/python/topsort.py:362-385 | one child either closes a cycle that is then known up to rotation, or pushes the extended simple path; only reached nodes are marked visited |
| FindCycles.Expand | bindings/python/topsort.py:362-385 | all children are dealt with and the weight of the stack drops |
| FindCycles.PopKeepsCover | bindings/python/topsort.py:352-360 | popping a path never loses a simple path: it is complete, or has a prefix left on the stack |
| FindCycles.Search | bindings/python/topsort.py:351-385 | the stack loop ends, having closed every simple path from its start |
| FindCycles.CycleIsCovered | bindings/python/topsort.py:346-349 | a cycle below a searched start has been found, which is what justifies skipping visited starts |
| FindCycles.FindCycles | bindings/python/topsort.py:343-385 | every yielded list is a simple cycle, no two are rotations of each other, every simple cycle is yielded up to rotation, and something is yielded iff there is a cycle |
| WorkerPool.PlacesStep | test.py:965-1033 | each action moves a job from one place to another, or dispatches the next one |
| WorkerPool.EveryRunKeepsInv | test.py:965-1033 | in every interleaving each dispatched job is in exactly one place, each exited worker has taken one sentinel, no real job is queued once a worker has exited, and break flags come back only after an interrupt |
| WorkerRuns.NoDeadlock | test.py:1664-1687 | until the main thread is done, some thread can move without an interrupt |
| WorkerRuns.StuckMeansDone | test.py:1825-1826 | a run in which no thread can move has finished |
| WorkerRuns.EveryStepCounts | test.py:965-1033 | every step of every thread lowers one measure |
| WorkerRuns.EveryRunEnds | test.py:1686-1687 | J jobs on N workers take at most 5J + 3N + 5 steps, whatever the interleaving |
| WorkerRuns.TallyPartitions | test.py:1686-1720 | the five counters and the interrupted jobs partition what was collected; passed plus skipped is everything iff every job passed or was skipped |
| WorkerRuns.OutcomeOfEveryRun | test.py:1909-1912 | on return all workers are gone, both queues are empty, each job was collected exactly once, the counters add up, and the status is 0 iff every collected job passed or was skipped; an interrupted job prevents success |
| WorkerActions.EveryRunChooses | test.py:979-1000 | in every interleaving a job is handed back only after an interrupt, skipped or launched only before one, and skipped iff it is marked |
| WorkerRuns.NothingIsRuledOut | test.py:965-1033 | an interrupt may come at any time, a waiting worker takes whatever is queued, a running job may end with any code |
| WorkerActions.OutcomeOverActions | test.py:1686-1720 | what is collected is one report for each action that ended a job, in order, for the job that worker took last; each counter is the number of actions of its kind; the status is 0 iff no job was handed back and every one that ran returned 0 |
| WorkerActions.ReportOfEveryJob | test.py:979-1033 | a job that ran is collected with the code it ended with and unmarked, one handed back is marked, one skipped is neither |
| WorkerRuns.CollectAll | test.py:1686-1720 | the collect loop computes the specified counters |
| EdgeAllocation.GetEdge | scratch/simulation.cc:977-986 | the last server that holds the user, -1 iff none does |
| EdgeAllocation.BestIsGreatest | scratch/simulation.cc:1971-2039 | the scoring loop picks the first server of greatest score |
| EdgeAllocation.FallbackExists | scratch/simulation.cc:1179-1191 | whenever the fallback loop is entered another server has a free unit |
| EdgeAllocation.MigrateMoves | scratch/simulation.cc:1315-1327 | a migration moves one unit from target to source, or does nothing when the target is full |
| EdgeAllocation.EveryRunConserves | scratch/simulation.cc:1176-1203 | in every run, under every algorithm, free units plus active users equal the capacity and no counter exceeds it |
| EdgeGlobalLaw.GlobalLawIff | scratch/simulation.cc:333-335 | this holds exactly when the capacity fits 16 bits; beyond that one connected user whose greedy handovers fail again and again wraps a counter |
| EdgeServerLaw.WinnerHasRoom | scratch/simulation.cc:2021-2040 | the scored winner, if it is not the serving node, has a free unit, so `migrate` cannot fail |
| EdgeServerLaw.MigrationKeepsSeats | scratch/simulation.cc:2048-2054 | moving the unit and rewriting `edgeUe` together keeps every server exactly filled |
| EdgeServerLaw.EveryRunKeepsSeats | scratch/simulation.cc:1934-2057 | every active user sits on exactly one server, every inactive one on none, and free units plus users are ten on each server |
| EdgeServerLaw.BrokenLawIsReachable | scratch/simulation.cc:2041-2057 | otherwise some run makes the manager choose a full winner and breaks the law |
| EdgeServerLaw.PerServerLawIff | scratch/simulation.cc:1971-2057 | the per-server law holds in all reachable states iff the configuration leaves room to migrate |
| EdgeSteps.ConnectGivesUnit | scratch/simulation.cc:1176-1203 | on its first connect a user gets its cell's server if that has a unit, else the fallback; that server loses one unit and no other entry changes |
| EdgeSteps.HandoverMovesUser | scratch/simulation.cc:1222-1234 | under "greedy" exactly the user's entries at the two servers change and one migration is scheduled; otherwise no allocation entry changes |
| EdgeSteps.WinnerIsFavoured | scratch/simulation.cc:1971-2039 | the winner is the first UAV server with a free unit, else the first static one, else server 0; under "qos" or with an unmeetable latency it is server 0 |
| EdgeSteps.DecideIsTurn | scratch/simulation.cc:1941-2057 | a user is moved iff a handover is expected, its last server is not the favoured one and five seconds have passed since it last went there; then exactly its two entries, one chart entry and at most two counters change |
| EdgeSteps.TickIsTurns | scratch/simulation.cc:1934-2064 | a tick is one such turn for each user, in order, on the tables the user before left |
| EdgeManager.Tables.constructor | scratch/simulation.cc:322-335 | the initial tables |
| EdgeManager.Tables.Fallback | scratch/simulation.cc:1179-1191 | the random loop stops at the first draw of another server with a free unit |
| EdgeManager.Tables.ConnectionEstablished | scratch/simulation.cc:1176-1203 | a first connect takes one unit from the cell's server, or from the fallback if that is full, and enters the user there; a later one changes no allocation; the global law is kept |
| EdgeManager.Tables.HandoverStarted | scratch/simulation.cc:1222-1234 | the user leaves the cell; the greedy rewrite of `edgeUe` and the scheduled migration |
| EdgeManager.Tables.MigrationDue | scratch/simulation.cc:1226-1231 | a scheduled migration runs once, in any order, and keeps the global law |
| EdgeManager.Tables.Migrate | scratch/simulation.cc:1315-1327 | the resource counters after `migrate` |
| EdgeManager.Tables.GetEdge | scratch/simulation.cc:977-986 | the scan loop |
| EdgeManager.Tables.BestServer | scratch/simulation.cc:1971-2039 | the scoring loop |
| EdgeManager.Tables.ManageUser | scratch/simulation.cc:1941-2057 | one user's turn of the manager |
| EdgeManager.Tables.Manage | scratch/simulation.cc:1934-2064 | the whole tick, one turn after the other, keeping the global law |
| Matriz.FlatSetAt | scratch/matriz.h:36-42 | writing one cell of the flat storage changes that cell and no other |
| Matriz.FlatAtIsRowMajor | scratch/matriz.h:36-42 | row i, column j lies at i times the number of columns plus j |
| Matriz.Matrix.SetDimensions | scratch/matriz.h:89-95 | the new size; old elements stay in front, new ones are default |
| Matriz.Matrix.Get | scratch/matriz.h:79-87 | out of range iff a row or column index is too large, else the cell |
| Matriz.Matrix.Set | scratch/matriz.h:79-87 | the same for writing |
| CellAttachment.FirstMatch | scratch/simulation.cc:899-909 | the first cell with a nonzero entry, or -1 |
| CellAttachment.LastMatch | scratch/simulation.cc:911-922 | the last cell with a nonzero entry, or 0 |
| CellAttachment.StepKeepsInv | scratch/simulation.cc:1205-1259 | each callback keeps: one cell per user, no cell during a handover, and serving entries named in `rnti_cells` |
| AttachmentRuns.ConnectedMoves | scratch/simulation.cc:1205-1211 | a connected user is served by that cell with that RNTI and by no other, whatever served it before; the pair names it; nothing else changes |
| AttachmentRuns.HandoverEndedMoves | scratch/simulation.cc:1257-1259 | the same for the end of a handover |
| AttachmentRuns.HandoverStartedMoves | scratch/simulation.cc:1222-1222 | between start and end no cell serves the user; nothing else changes |
| AttachmentRuns.TablesInEveryRun | scratch/simulation.cc:881-922 | in every plausible run each table entry is what the last callback about its user left, and `get_imsi` answers with the last user that attached with that pair |
| AttachmentRuns.ScansAgreeIffServed | scratch/simulation.cc:881-922 | first-match and last-match scans agree exactly for users with a cell |
| AttachmentRuns.AttachmentInEveryRun | scratch/simulation.cc:881-922 | in every plausible run a user has at most one serving cell, both scans find it, and `get_imsi` finds the user back despite stale entries |
| AttachmentRuns.LoneHandoverEndIff | scratch/simulation.cc:1257-1259 | a handover end without a start keeps one cell per user iff it carries no RNTI or no other cell serves the user |
| AttachmentTables.Attachments.GetCell | scratch/simulation.cc:899-909 | the first-match loop |
| AttachmentTables.Attachments.GetCellFromImsi | scratch/simulation.cc:911-922 | the last-match loop |
| AttachmentTables.Attachments.AskImsi | scratch/simulation.cc:894-897 | the lookup, with the zero entry it inserts |
| AttachmentTables.Attachments.ConnectionEstablished | scratch/simulation.cc:1205-1211 | one connect step over the matrix |
| AttachmentTables.Attachments.HandoverStart | scratch/simulation.cc:1222-1222 | the entry of the left cell is cleared |
| AttachmentTables.Attachments.HandoverEndOk | scratch/simulation.cc:1257-1259 | the entry of the new cell is written |
| Handover.SecondRequestIsIdle | scratch/simulation.cc:1643-1690 | a second request in the same report changes nothing, whatever came of the first |
| Handover.Strongest | scratch/simulation.cc:1844-1853 | the first candidate cell of strongest signal above the zero level |
| Handover.OneRequestPerReport | scratch/simulation.cc:1756-1870 | under every policy a report causes at most one accepted request, for a valid other cell |
| Handover.LoopAsksForFirstDrone | scratch/simulation.cc:1797-1814 | the "iuavbs" loop amounts to one request, for the first drone above the zero level |
| Handover.IuavbsTakesFirstDrone | scratch/simulation.cc:1797-1814 | that target is the strongest drone iff no later drone is stronger |
| Handover.IuavbsMissesStrongest | scratch/simulation.cc:1799-1804 | a concrete report where it is not |
| Handover.ClassicTargetIsStrongest | scratch/simulation.cc:1844-1862 | a classic target is a valid non-serving cell of maximal signal, more than the threshold above the serving one |
| Handover.ClassicChainsAreShort | scratch/simulation.cc:1844-1862 | with fixed measurements a classic handover is never followed by another |
| Handover.LimitsInEveryRun | scratch/simulation.cc:1656-1754 | in every run a user's handovers are at least 2.0 seconds apart, each per-second counter equals the logged handovers of that second, and it is at most the limit plus one |
| Handover.ReportIff | scratch/simulation.cc:1656-1870 | a report leads to the handover its policy wants, told from the measurements, exactly when nothing is pending, the user is well connected, its logged handovers are two seconds away and at most three fell into this second; every other report changes nothing |
| Handover.PendingSinceClear | scratch/simulation.cc:1753-1778 | between two clearings of its flag a user is handed over at most once, and the flag says whether it was |
| Handover.AtMostOnePerUser | scratch/simulation.cc:1643-1654 | in every run no second sees more handovers than there are users |
| Handover.WithinLimitIff | scratch/simulation.cc:1656-1754 | the per-second constant is kept by all runs iff there are at most three users or the configuration never asks for a handover |
| HandoverScheduler.Scheduler.FindHandover | scratch/simulation.cc:1643-1654 | the scan finds exactly the repeats |
| HandoverScheduler.Scheduler.ScheduleHandover | scratch/simulation.cc:1656-1754 | one scheduler step |
| HandoverScheduler.Scheduler.AskForDrone | scratch/simulation.cc:1797-1814 | the "iuavbs" loop |
| HandoverScheduler.Scheduler.FindStrongest | scratch/simulation.cc:1846-1853 | the signal loop of the other policies |
| HandoverScheduler.Scheduler.HandoverManager | scratch/simulation.cc:1774-1870 | one report |
| X2Matrix.CollectOwners | scratch/simulation.cc:415-425 | the map leads from an address to the last station that has it, and knows no other address |
| X2Matrix.PopulateX2Matrix | scratch/simulation.cc:411-442 | row i, column k holds the last address of station i whose peer address the map, with its inserted zeros, gives to k, for any stations whatever |
| X2Entries.EntryIffLink | scratch/simulation.cc:427-441 | with proper links an entry is set exactly for a link, to the station's own end of it |
| X2Entries.AllRecordedIff | scratch/simulation.cc:411-442 | every interface stands in its row under the station at the other end, with hosts 1 and 2 of one network in the two mirrored entries, iff the links are proper |
| X2Entries.DanglingOverwrites | scratch/simulation.cc:438-439 | an unknown peer is taken for station 0 |
| X2Entries.ParallelLinksMix | scratch/simulation.cc:434-439 | two links between one pair leave ends of different networks |
| X2Links.AddX2Interfaces | src/lte/helper/lte-helper.cc:1220-1233 | the nested loops join every pair, with proper links |
| X2Matrix.InstallX2 | scratch/simulation.cc:455-456 | after linking and populating, the entries for any two stations are the two ends of one network, host 1 at the lower-numbered one, and the diagonal is unset |
| Gather.SelfContainedIsClosed | utils/print-introspected-doxygen.cc:420-503 | if the types that attributes, registrations and aggregations mention are known, the search stays among the known types |
| Gather.EdgesComeFrom | utils/print-introspected-doxygen.cc:430-502 | the edges of a type are one for each pointer attribute not to Object, container attribute, registered child and aggregation, attributes first, aggregations last, in their listed order |
| Gather.EdgeIff | utils/print-introspected-doxygen.cc:430-502 | an edge with that label and target is among them iff one of these four leads there |
| Gather.RecordsOfRegistry | utils/print-introspected-doxygen.cc:411-503 | a type and path text are recorded iff a chain of such steps reaches the type without visiting any type twice and reads that way |
| Gather.RenderSpells | utils/print-introspected-doxygen.cc:328-337 | the path text is every label behind a slash |
| Gather.PathsAreSimplePaths | utils/print-introspected-doxygen.cc:420-503 | the search visits exactly the simple paths: no type twice, none already processed |
| Gather.PathsAreDistinct | utils/print-introspected-doxygen.cc:420-503 | no path is recorded twice |
| Gather.GatheredIsEntries | utils/print-introspected-doxygen.cc:342-346 | the output lists, in order, the end type and rendered labels of these paths |
| Gather.StaticInformation.GetCurrentPath | utils/print-introspected-doxygen.cc:328-337 | the rendered label stack |
| Gather.StaticInformation.HasAlreadyBeenProcessed | utils/print-introspected-doxygen.cc:349-361 | membership in the type stack |
| Gather.StaticInformation.RecordOutput | utils/print-introspected-doxygen.cc:341-346 | one record is appended |
| Gather.StaticInformation.Descend | utils/print-introspected-doxygen.cc:449-453 | push, search, pop: both stacks are restored |
| Gather.StaticInformation.DoGather | utils/print-introspected-doxygen.cc:420-503 | it ends, restores both stacks and appends what the search gathers |
| Gather.StaticInformation.Gather | utils/print-introspected-doxygen.cc:411-417 | from a fresh object: one record per simple path from the root, none missing, none twice; in terms of the registry: exactly what can be reached through its attributes, children and aggregations |
| Patchset.DecimalRoundTrip | utils/check-style.py:301-302 | printed positions read back |
| Patchset.ReadsWhatWasWritten | utils/check-style.py:376-376 | lines without newlines are read back as written |
| Patchset.ParsePatchset | utils/check-style.py:367-411 | the parser loop, errors included |
| PatchRoundTrip.HeaderRoundTrip | utils/check-style.py:301-302 | a chunk header with natural positions is recognised and gives its positions back |
| PatchRoundTrip.ClassifyLine | utils/check-style.py:220-227 | what each printed body line is taken for; the two lookalikes of header lines are the only exceptions |
| PatchRoundTrip.PatchesParse | utils/check-style.py:367-411 | the tokens of clean patches parse back to the patches |
| PatchRoundTrip.ParsedIsPlain | utils/check-style.py:376-411 | parsed patches have no newlines, natural positions and typed lines |
| PatchRoundTrip.ParseCounts | utils/check-style.py:376-411 | the parser keeps exactly the body lines |
| PatchRoundTrip.RoundTripIffClean | utils/check-style.py:214-411 | printing and parsing gives the patches back iff names and contents have no newline, positions are not negative, lines are typed, no source-only line starts with "-- " and no destination-only line with "++ " |
| ParserMeaning.HeaderIff | utils/check-style.py:370-370 | a line is a chunk header with these positions iff it matches the regular expression |
| ParserMeaning.LineMeaning | utils/check-style.py:367-411 | what every line is taken for, in the order of the tests |
| ParserMeaning.HeaderCounts | utils/check-style.py:301-302 | a printed header carries both positions and the numbers of source and destination lines |
| ParserMeaning.IntegerSpelled | utils/check-style.py:301-302 | positions are printed in decimal, with a sign if negative |
| ParserMeaning.ParseFailsIff | utils/check-style.py:367-411 | parsing fails iff some line fits nothing, or needs a patch or a chunk and there has been none |
| ParserMeaning.ParseSays | utils/check-style.py:376-411 | one patch for each source name with the last destination name before the next; chunks where their headers stand; body lines after the last header before them, even one of an earlier patch |
| Genetic.GenMovementVector | scratch/uavs_ag.py:199-205 | a new vector with every component within speed times timestep |
| Genetic.SortSolutions | scratch/uavs_ag.py:240-241 | the same references, best first, those of equal score in their old order |
| Genetic.Mutate | scratch/uavs_ag.py:244-252 | entries stay or become new vectors; the first stays |
| Genetic.CrossRows | scratch/uavs_ag.py:261-263 | on row views the exchange copies the second vector into the first |
| Genetic.Crossover | scratch/uavs_ag.py:255-266 | the first vector stays; another one stays or becomes a copy of its partner |
| Genetic.Prune | scratch/uavs_ag.py:269-275 | exactly the entries past the middle are replaced |
| Genetic.HistoryGrows | scratch/uavs_ag.py:289-297 | a round that keeps the best vector extends the history |
| Genetic.Round | scratch/uavs_ag.py:289-297 | the vector in front afterwards is a best one of the sorted population, unchanged, and the back half is new |
| Genetic.GenSolutions | scratch/uavs_ag.py:278-297 | over all random choices: constant size, no aliasing, bounded components, recorded fitness attained and never decreasing, and the final first vector at least as good as everything ever sorted |
| BinaryStrings.ExpandIsBits | bindings/python/rad_util.py:96-96 | the hexadecimal table gives the bits of the number, and enough of them |
| BinaryStrings.Int2BinIsBits | bindings/python/rad_util.py:91-105 | for natural numbers and at least one bit: the reference bits, or ValueError iff the number does not fit |
| BinaryStrings.KeyErrorIffNegative | bindings/python/rad_util.py:91-96 | the table lookup fails exactly for negative numbers |
| BinaryStrings.NoWidthIsBits | bindings/python/rad_util.py:97-105 | with a width of zero or less that many characters are dropped from the front, and ValueError is raised iff one of them is a one |
| BinaryStrings.RoundTrip | bindings/python/rad_util.py:91-130 | the result has n characters and `bin2int` gives the number back |
| BinaryStrings.Ripple | bindings/python/rad_util.py:649-659 | one ripple adds one, and the last toggle says whether it wrapped |
| BinaryStrings.BinaryRange | bindings/python/rad_util.py:639-660 | exactly 2^bits strings (none for zero bits), the k-th being `int2bin(k, bits)` |
| Timeline.Search | utils/grid.py:106-117 | finds the range that contains the key, -1 iff there is none |
| Timeline.GetRanges | utils/grid.py:138-147 | the slice between the hits; it equals the linear filter iff no range lies beyond a single missing end, or both missing ends lie in the same gap |
| Timeline.CutIffExact | utils/grid.py:140-147 | that equivalence, case by case |
| Timeline.NothingLostIff | utils/grid.py:140-147 | no meeting range is lost iff an end hits or both ends lie in the same gap |
| Timeline.EnclosedRangeIsLost | utils/grid.py:140-141 | the failing case |
| Timeline.SearchEvent | utils/grid.py:201-212 | the number of events before the key |
| Timeline.GetEvents | utils/grid.py:220-229 | all events of the window in order, then at most the earliest later event; none iff an event sits exactly at the end or nothing comes later |

## Left out

- ns-3 itself (LTE stack, mobility, energy, flow monitor, event queue): its callbacks are events with arbitrary arguments, under the promises stated in `CellAttachment.Plausible` and `EdgeAllocation.Possible`: a handover starts at the cell the user is attached to.
- `HandoverPrediction` and the mobility trace: an arbitrary "handover expected" flag per user and tick.
- Plotting, XML and HTML reports, process and file handling, code generation, examples: nothing hard to prove, or input and output only.
- "greedy" and "qos" allocation per server: the program rewrites `edgeUe` independently of the resource move there, so only the global law applies.
- `run_job_synchronously`: any return code; `Job` fields that no decision reads are dropped, and threads are taken as started.
- Floating point: times, signals and vector components are real numbers; the fitness is an arbitrary function of a vector's contents.
- Patch, chunk and line objects are values: the parser's current chunk, which a new patch does not reset, is an index into the patch list.
- `parse_patchset` input is text with "\n" line ends only.
- `bin2int` is modelled on strings of zeros and ones; Python also accepts signs, prefixes and blanks.
- `Uniquefy` works on a copy, so the gatherer's output is stated as it is recorded; `RecordAggregationInfo` is taken as done.
- The order in which a dictionary lists its keys: any order, in `topsort`, its levels and `find_cycles`.
- IPv4 addresses are natural numbers in networks of four, as the helper's mask 255.255.255.252 makes them; running out of 32 bits, which the address helper asserts against, is not modelled. Interfaces 0 and 1 of a base station do not appear.
- `EdgeManager.Tables` shows the user's cell as ghost state; the table the program keeps it in is `AttachmentTables`.
