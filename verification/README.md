# Verification models

This project models four parts of the repository in Dafny and proves what they promise.

1. The cooperative data-sharing scheduler (`src/cgame`, with the node side in `src/cgamemac`). Nodes upload
   which items they cache and miss; the scheduler builds a capacity table, enumerates tentative transmissions
   (TTs), removes dominated ones, builds a conflict graph, chooses a weighted independent set greedily, and
   sends one download per active sender. The main results are the approximation bound against every feasible
   schedule, the exact lists of candidates and conflicts, the safety of every schedule, and the progress of caches
   over runs of rounds.
2. The channel access manager of the wifi module (the backoff procedure in section 9.19.2.5 of IEEE
   802.11-2012). Slots are counted lazily in batches; the reference is a countdown that takes one slot at a time.
   Every notification is a step of a state machine, and a run is any sequence of them.
3. The block ack scoreboard, the compressed response and the originator's queue pass (section 9.21.7.3 of IEEE
   802.11-2012). A circular array of 4096 entries is related to an unbounded record of received MPDUs.
4. The interference bookkeeping: a compacted list of power changes against the power of the events themselves,
   and the split of a packet into chunks for its error rate.

| file | part |
|---|---|
| Numbers, IndexSums, ConflictGreedy | shared numbers; sums over sets of indices; the greedy rule and its bounds |
| Subsets, Transmissions, Schedules, Links | enumeration, best item sets, deletion, conflicts, downloads, capacities, neighbours |
| Deletion, Enumeration | deletion loses no weight on any link; exactly which candidates are listed |
| MergedSchedules | the merged variant: one candidate for a whole receiver vector |
| Scheduler, MergedScheduler | the scheduler objects and their loops |
| Rounds, CacheNode | caches over rounds and runs; the cache of one node |
| DcfTiming, DcfSteps, DcfRuns | one backoff; the steps of the manager; grants, records and runs |
| DcfEvents, DcfTimer | what each event does to busy times, backoffs and timer; no lost wake-up |
| DcfQuiet, DcfManager | busy instants and slots; the objects |
| Scoreboard, BlockAckResponse, BlockAckHistory | the receiver's array; responses and the originator; old requests |
| Interference, PacketErrorRate, PacketSuccess | power changes; chunks of a packet; its error rate over instants |

Each state-changing method is verified against a function of the old state; the theorems are lemmas about those
functions and about runs of them.

## What the code does not do

These are properties a reader would expect and the code does not always have, with the conditions under which it does.

- Backoff counting keeps elapsed microseconds in 32 bits. A batch equals the countdown if and only if nothing is
  lost to that wrap (`DcfTiming.BatchIsCountDown`); `DcfTiming.WrapStallsBackoff` is an input where a backoff stands
  still. Two updates equal one under the condition in `DcfTiming.UpdateTwice`. A state granted or colliding after
  a wrap can have slots left (`DcfRuns.GrantPassExact`, `DcfRuns.CollisionAfterWrap`), against the assertion that a
  new backoff finds none; while the timer covers every request, timeouts never do (`DcfTimer.TimeoutsNeverMeetSlots`).
- A requesting state can be left with an expired backoff and no timer, if the granted state has nothing to send
  and a colliding state draws zero slots (`DcfTimer.PassClearsIff`, `DcfTimer.ZeroDrawLosesWakeUp`). And an event that
  lets the medium be free earlier makes a backoff end before its timer fires: exactly these events do
  (`DcfTimer.MediumEventSafeIff`), a short reception after an erroneous one for instance
  (`DcfTimer.ShortReceptionOutrunsTimer`).
- The scoreboard entry of a number that moves the window is not cleared. A fragment from an earlier lap survives
  there (`Scoreboard.StaleFragment`); the update is right if and only if that entry holds no other fragment
  (`Scoreboard.MpduFollows`). For unfragmented traffic it always is.
- A block ack request that jumps beyond the window does not clear the numbers in between. A later, old request for
  them is answered from the laps before: `BlockAckHistory.ResponseRightIff` and `BlockAckHistory.DroppedUnreceivedIff`
  say exactly when it is wrong, `BlockAckHistory.SkippedAcknowledged` is a run in which it is.
- The chunk split assumes that a greenfield preamble has no legacy header. The header duration of a payload that
  is not HT is not zero, and the split is then not exact (`PacketErrorRate.SplitExactIff`).
- Neighbour selection overwrites the entries it has looked at, the sender's own among them, with their ranges. The
  first of these, or of the places of nodes out of range, ends the search although nodes in range may lie beyond it
  (`Links.SelectionExact`, `Links.AllInRangeSelectedIff`, `Links.NodeOutOfRangeEndsSearch`). In particular a larger
  range around RSUs is never used (`Links.OwnEntryIsBarrier`). With equal ranges the selection is the nearest nodes
  in range (`Links.EqualRangesExact`).

## Model

| member | source | states |
|---|---|---|
| ConflictGreedy.ChosenApproximates | src/cgame/model/cgame-inout-greedy.cc:241-274 | For a symmetric, irreflexive graph and any D that bounds the degrees, the chosen weight times max(1, D) is at least the weight of every independent set |
| ConflictGreedy.ChosenShareBound | src/cgame/model/cgame-inout-greedy.cc:241-274 | The chosen weight is at least the sum over all vertices of weight / (degree + 1), degrees taken in the full graph |
| ConflictGreedy.ChosenIndependent | src/cgame/model/cgame-inout-greedy.cc:241-274 | The chosen set is independent |
| ConflictGreedy.ChosenMaximal | src/cgame/model/cgame-inout-greedy.cc:241-274 | Every vertex not chosen has a chosen neighbour |
| ConflictGreedy.ChosenPositive | src/cgame/model/cgame-inout-greedy.cc:241-274 | If some remaining vertex has positive weight, the chosen weight is at least 1 |
| ConflictGreedy.StepCharge | src/cgame/model/cgame-inout-greedy.cc:241-274 | What one iteration takes from an independent set weighs at most max(1, D) times the vertex chosen there |
| ConflictGreedy.StepShare | src/cgame/model/cgame-inout-greedy.cc:241-274 | One iteration removes shares that add up to at most the weight of the vertex chosen there |
| ConflictGreedy.BestUnique | src/cgame/model/cgame-inout-greedy.cc:247-266 | The vertex the scan settles on, the first one of largest ratio, is unique |
| ConflictGreedy.CountNeighbours | src/cgame/model/cgame-inout-greedy.cc:251-259 | The degree loop counts the remaining neighbours of a vertex |
| ConflictGreedy.PickBest | src/cgame/model/cgame-inout-greedy.cc:247-266 | One pass over the remaining vertices returns the first one of largest weight / (degree + 1) |
| ConflictGreedy.Discard | src/cgame/model/cgame-inout-greedy.cc:269-273 | The erasing loop leaves the remaining vertices that are not neighbours of the chosen one |
| ConflictGreedy.GreedyAlgorithm | src/cgame/model/cgame-inout-greedy.cc:241-274 | The loops over the graph table and weight array return exactly the set the theorems above are about |
| Subsets.SublistsCount | src/cgame/model/cgame-inout-greedy.cc:478-505 | The include/exclude recursion lists 2^n vectors |
| Subsets.SublistsWithin | src/cgame/model/cgame-inout-greedy.cc:478-505 | Every listed vector extends the prefix by elements of the list |
| Subsets.SublistsComplete | src/cgame/model/cgame-inout-greedy.cc:478-505 | Every subset is listed |
| Subsets.SublistsOrdered | src/cgame/model/cgame-inout-greedy.cc:478-505 | A subset is listed before each of its supersets, so no set is listed twice |
| Subsets.SublistsIncrease | src/cgame/model/cgame-inout-greedy.cc:493-505 | Sub-vectors of an ascending neighbour list are ascending |
| Transmissions.ScanFirstBest | src/cgame/model/cgame-inout-greedy.cc:438-458 | The strict-improvement scan keeps the first item set of largest delivered weight |
| Transmissions.BestItemsMaximal | src/cgame/model/cgame-inout-greedy.cc:428-461 | No subset of the possible items delivers more than the one found |
| Transmissions.BestItemsMinimal | src/cgame/model/cgame-inout-greedy.cc:428-461 | Every proper subset of the items found delivers strictly less |
| Transmissions.BestItemsUseful | src/cgame/model/cgame-inout-greedy.cc:428-461 | Every item sent is missed by some receiver whose link carries the whole set |
| Transmissions.BestItemsWithin | src/cgame/model/cgame-inout-greedy.cc:417-427 | The items found are cached by the sender and missed by some receiver |
| Transmissions.AllTTsSound | src/cgame/model/cgame-inout-greedy.cc:386-476 | Every candidate is sent by a node that caches its items over a link of enough capacity to a receiver that misses some of them |
| Transmissions.AllTTsCover | src/cgame/model/cgame-inout-greedy.cc:386-476 | A useful link of positive capacity always yields a candidate |
| Enumeration.VectorOfNodes | src/cgame/model/cgame-inout-greedy.cc:390-414 | For every set of nodes a sender has links to, its ascending vector is listed |
| Enumeration.NodesOfVector | src/cgame/model/cgame-inout-greedy.cc:390-414 | Every listed vector is the ascending vector of such a set |
| Enumeration.BestForIsBest | src/cgame/model/cgame-inout-greedy.cc:415-461 | The best item set found for a set of nodes brings as many missing items as counted, and no set of items the sender caches brings more |
| Enumeration.ListedIffArises | src/cgame/model/cgame-inout-greedy.cc:386-476 | A candidate is listed if and only if, for some set of nodes its sender has links to, it sends the best item set of that set of nodes to one of them whose link carries it and who misses some of it |
| Enumeration.ListedGainIsBest | src/cgame/model/cgame-inout-greedy.cc:386-476 | For every set of linked nodes, the listed candidates of its best item set bring its nodes, together, all the missing items that set can bring |
| Schedules.KeptIndicesExact | src/cgame/model/cgame-inout-greedy.cc:175-208 | Deletion keeps exactly the candidates with no earlier dominating one, in their order |
| Schedules.SurvivorsUndominated | src/cgame/model/cgame-inout-greedy.cc:175-208 | No survivor sends everything that an earlier survivor of the same sender and receiver sends |
| Schedules.DeletedHasSurvivor | src/cgame/model/cgame-inout-greedy.cc:175-208 | Every candidate has a survivor, itself or an earlier one, with the same sender and receiver and no other items |
| Deletion.SingletonHeaviest | src/cgame/model/cgame-inout-greedy.cc:428-461 | No candidate of a link brings more than the best item set for its receiver alone |
| Deletion.FirstVector | src/cgame/model/cgame-inout-greedy.cc:493-505 | The vector of one receiver alone is listed before every other vector with it |
| Deletion.FirstOfLink | src/cgame/model/cgame-inout-greedy.cc:386-476 | The first candidate of a link in the whole list carries that best item set |
| Deletion.DeletionKeepsWeight | src/cgame/model/cgame-inout-greedy.cc:175-208 | For every candidate some survivor of the same sender and receiver brings at least as many missing items: deletion loses no weight on any link |
| Schedules.ConflictsSimple | src/cgame/model/cgame-inout-greedy.cc:295-342 | The conflict graph is symmetric and irreflexive |
| Schedules.IndependentIsFeasible | src/cgame/model/cgame-inout-greedy.cc:295-342 | Every independent set is feasible: equal items per sender, no node on both sides, each receiver hears its own sender and no other active one, no shared receiver |
| Schedules.IndependentIffFeasible | src/cgame/model/cgame-inout-greedy.cc:295-342 | A choice of undominated candidates is independent in the conflict graph if and only if it is a feasible schedule: the graph has every edge it needs and no other |
| Schedules.NeighboursAreRivals | src/cgame/model/cgame-inout-greedy.cc:295-342 | The neighbours of a candidate are exactly those it cannot be scheduled together with |
| Schedules.DownloadsOnePerSender | src/cgame/model/cgame-inout-greedy.cc:210-240 | The results name each active sender exactly once and nobody else |
| Schedules.DownloadItems | src/cgame/model/cgame-inout-greedy.cc:222-237 | The download of a sender carries the items of each of its chosen candidates, which is the assertion made there |
| Schedules.ScheduleFeasible | src/cgame/model/cgame-inout-greedy.cc:116-174 | Every emitted schedule is feasible and has exactly one download per active sender |
| Schedules.ScheduleItems | src/cgame/model/cgame-inout-greedy.cc:210-240 | In an emitted schedule, a download carries the items of each chosen candidate of its sender |
| Schedules.PicksApproximate | src/cgame/model/cgame-inout-greedy.cc:116-174 | No feasible schedule of candidates weighs more than max(1, D) times the chosen one, where no candidate is infeasible together with more than D others |
| Schedules.ScheduleMaximal | src/cgame/model/cgame-inout-greedy.cc:116-174 | Every candidate left out is infeasible together with a chosen one |
| Links.CapacityAtLeast | src/cgame/model/cgame-class.cc:62-104 | A link carries c items if and only if it is not between two RSUs, is in range, and is no longer than ⌊range/M⌋ + (M - c)·range/M, where M is the largest channel |
| Links.ReachExact | src/cgame/model/cgame-class.cc:78-99 | The reach of a level in closed form: the whole part of a step plus one step for each level given up |
| Links.CapacityAntitone | src/cgame/model/cgame-class.cc:62-104 | A longer link never carries more |
| Links.ReachCoversRange | src/cgame/model/cgame-class.cc:78-99 | The levels cover the whole range, so the level counter never passes zero |
| Links.ChannelCapacity | src/cgame/model/cgame-class.cc:62-104 | The stepping loop ends, its assertions hold, and it computes that capacity |
| Links.Nearest | src/cgame/model/cgame-inout-greedy.cc:759-766 | The minimum search returns the first smallest entry, unless no entry is below the start value |
| Links.SelectNeighbours | src/cgame/model/cgame-inout-greedy.cc:757-787 | The selection loop ends with at most the configured number of other nodes, each in range and each reached: its (distance, number) comes before the barrier of every node, which is the range of a node in range and the place of any other. Nobody left out comes before somebody selected, and with room left everybody reached is in |
| Links.ReachedInRange | src/cgame/model/cgame-inout-greedy.cc:776-782 | A reached node is in range |
| Links.SelectionExact | src/cgame/model/cgame-inout-greedy.cc:757-787 | The selection is exactly as many of the other nodes reached as there is room for, and they come before all the rest |
| Links.AllInRangeSelectedIff | src/cgame/model/cgame-inout-greedy.cc:757-787 | All other nodes in range are selected if and only if there is room for them and each comes before every barrier |
| Links.NodeOutOfRangeEndsSearch | src/cgame/model/cgame-inout-greedy.cc:757-787 | A concrete table: an RSU out of range at 15 ends the search, so nothing is selected although an OBU at 20 is in range |
| Links.OwnEntryIsBarrier | src/cgame/model/cgame-inout-greedy.cc:774-786 | The sender's own overwritten entry is such a barrier: nothing beyond the range between OBUs is selected |
| Links.EqualRangesExact | src/cgame/model/cgame-inout-greedy.cc:757-787 | With equal ranges the selected nodes are the nearest ones in range, as many as there is room for |
| Scheduler.LinkTableIsReal | src/cgame/model/cgame-inout-greedy.cc:789-804 | A listed link does not lead back to its sender, is useful, and promises at most what the channel carries and what the sender caches |
| Scheduler.LinkCarriesIff | src/cgame/model/cgame-inout-greedy.cc:789-804 | Items the sender caches fit the entry of a link if and only if the receiver is selected, misses something the sender caches, and the channel carries them: the table loses no capacity |
| Scheduler.Scheduler.constructor | src/cgame/model/cgame-inout-greedy.cc:24-50 | A new scheduler has no uploads, candidates or results |
| Scheduler.Scheduler.SubsetsOfItems | src/cgame/model/cgame-inout-greedy.cc:478-491 | The recursion appends the subsets of the cached items in the listed order |
| Scheduler.Scheduler.SubsetsOfReceivers | src/cgame/model/cgame-inout-greedy.cc:493-505 | The recursion appends the sub-vectors of the receivers in the listed order |
| Scheduler.Scheduler.Wanted | src/cgame/model/cgame-inout-greedy.cc:417-422 | The union of what the receivers miss |
| Scheduler.Scheduler.WeightSum | src/cgame/model/cgame-inout-greedy.cc:443-452 | The weight delivered by one item set to the receivers whose links carry it |
| Scheduler.Scheduler.BestSet | src/cgame/model/cgame-inout-greedy.cc:438-458 | The scan over all item sets agrees with the one shown to be maximal and minimal |
| Scheduler.Scheduler.BestFor | src/cgame/model/cgame-inout-greedy.cc:417-461 | The best item set for one receiver vector, or none when the sender has nothing the receivers miss |
| Scheduler.Scheduler.PushTTs | src/cgame/model/cgame-inout-greedy.cc:464-475 | One candidate is appended for each receiver reached |
| Scheduler.Scheduler.GetTTsForCertainReceivers | src/cgame/model/cgame-inout-greedy.cc:415-476 | The candidates for one receiver vector are appended, with both early returns |
| Scheduler.Scheduler.Neighbours | src/cgame/model/cgame-inout-greedy.cc:390-400 | The ascending list of nodes a sender has a link to |
| Scheduler.Scheduler.GetAllTTsReduced | src/cgame/model/cgame-inout-greedy.cc:386-414 | The candidates of all senders over all receiver vectors are appended in order |
| Scheduler.Scheduler.DominatedIndices | src/cgame/model/cgame-inout-greedy.cc:176-190 | The double loop marks exactly the candidates dominated by an earlier one |
| Scheduler.Scheduler.DeleteSameForAllTTs | src/cgame/model/cgame-inout-greedy.cc:175-208 | Erasing the marked candidates in place leaves exactly the survivors, in order |
| Scheduler.Scheduler.PairConflicts | src/cgame/model/cgame-inout-greedy.cc:300-335 | The decision for a pair is the symmetric conflict relation |
| Scheduler.Scheduler.CheckForConflict | src/cgame/model/cgame-inout-greedy.cc:295-342 | The lower-triangle loop fills the whole table with the conflict graph |
| Scheduler.Scheduler.GetWeightForEachTT | src/cgame/model/cgame-inout-greedy.cc:275-294 | The weight array holds the number of missing items delivered, modulo 256 |
| Scheduler.Scheduler.HandlingResults | src/cgame/model/cgame-inout-greedy.cc:210-240 | From a feasible choice the results are one download per sender and the assertion holds |
| Scheduler.Scheduler.FillRow | src/cgame/model/cgame-inout-greedy.cc:789-804 | The row of a sender holds its links to the selected neighbours and zero elsewhere |
| Scheduler.Scheduler.GetChannelInfo | src/cgame/model/cgame-inout-greedy.cc:729-808 | The capacity table is the link table of the uploads and distances |
| Scheduler.Scheduler.ClearForPerScheduling | src/cgame/model/cgame-inout-greedy.cc:861-880 | The state of a period is cleared |
| Scheduler.Scheduler.SchedulingBegin | src/cgame/model/cgame-inout-greedy.cc:116-174 | What is sent is the schedule of the uploads under their link table, and the state is cleared |
| Scheduler.Scheduler.EraseMarked | src/cgame/model/cgame-inout-greedy.cc:197-207 | Erasing in place leaves the unmarked candidates in order |
| Scheduler.Scheduler.Record | src/cgamemac/model/cgamemac-mac.cc:488-496 | A report updates the single upload of its node, so the entry of the node shows it |
| Scheduler.Scheduler.ReceiveFromMacLayer | src/cgame/model/cgame-inout-greedy.cc:52-64 | A period starts exactly when all nodes have reported; each entry shows the latest report of its node, whose upload object is updated in place |
| Scheduler.PeriodIsRound | src/cgame/model/cgame-inout-greedy.cc:729-808 | A schedule from the link table of a period meets, on the air, every assumption of the round theorems while nobody moves |
| Rounds.DeliverAdds | src/cgame/model/cgame-class.cc:106-131 | A receiver in reach of a download has all its items at the end of the round |
| Rounds.Received | src/cgame/model/cgame-class.cc:106-131 | A packet above the capacity of the link leaves the cache as it was; any other is cached whole, and nothing else is added |
| Rounds.ChosenGain | src/cgame/model/cgame-inout-greedy.cc:275-294 | A chosen candidate brings its receiver at least its weight in new items |
| Rounds.RoundGain | src/cgame/model/cgame-inout-greedy.cc:275-294 | One round caches at least as many new items as its chosen candidates weigh |
| Rounds.RoundExists | src/cgame/model/cgame-inout-greedy.cc:847-860 | Whatever the caches and links, every chosen receiver can hear the download of its sender, so the assumptions of the gain theorems are never empty |
| Rounds.CandidatesIffLinked | src/cgame/model/cgame-inout-greedy.cc:386-476 | There are candidates if and only if some capacity entry is positive |
| Rounds.LinkedRoundProgress | src/cgame/model/cgame-inout-greedy.cc:116-174 | A round with a positive capacity entry chooses weight at least 1 |
| Rounds.ProductiveRoundsBounded | src/cgamemac/model/cgamemac-mac.cc:382-415 | Over any run the rounds with a link number at most the items missing at the start, less those missing at the end |
| Rounds.RunOrigin | src/cgamemac/model/cgamemac-mac.cc:382-415 | Every item cached at the end of a run was cached by some node at its start |
| CacheNode.CacheNode.constructor | src/cgamemac/model/cgamemac-mac.cc:439-467 | Initial caches: everything at an RSU, the drawn items elsewhere, with the missing items as complement |
| CacheNode.CacheNode.Complement | src/cgamemac/model/cgamemac-mac.cc:404-411 | The recomputed missing items are the complement, so the size assertion holds |
| CacheNode.CacheNode.Receive | src/cgamemac/model/cgamemac-mac.cc:382-411 | A packet that fits the link is cached whole, any other one not at all; missing and cached items stay complements |
| MergedSchedules.VectorsDistinct | src/cgame/model/cgame-inout-greedyMerged.cc:604-631 | The receiver vectors of one sender are different as sets |
| MergedSchedules.AllMergedDistinct | src/cgame/model/cgame-inout-greedyMerged.cc:604-687 | No two merged candidates of a sender have the same receiver set, and all their receivers are on links of the sender |
| MergedSchedules.NothingDominated | src/cgame/model/cgame-inout-greedyMerged.cc:187-222 | Deleting dominated merged candidates deletes nothing |
| MergedSchedules.ConflictsSimple | src/cgame/model/cgame-inout-greedyMerged.cc:448-539 | The merged conflict graph is symmetric and irreflexive |
| MergedSchedules.IndependentIsFeasible | src/cgame/model/cgame-inout-greedyMerged.cc:448-539 | In an independent set all senders differ and no one disturbs another's receivers |
| MergedSchedules.IndependentIffFeasible | src/cgame/model/cgame-inout-greedyMerged.cc:448-539 | A choice of merged candidates is independent in the merged conflict graph if and only if it is feasible |
| MergedSchedules.NeighboursAreRivals | src/cgame/model/cgame-inout-greedyMerged.cc:448-539 | The neighbours of a merged candidate are exactly those it cannot be scheduled together with |
| MergedSchedules.MergedApproximates | src/cgame/model/cgame-inout-greedyMerged.cc:128-186 | Whatever the weights, no feasible choice of merged candidates weighs more than max(1, D) times the chosen one, where no candidate has more than D rivals |
| MergedSchedules.DownloadsExact | src/cgame/model/cgame-inout-greedyMerged.cc:223-245 | A download is reported if and only if it belongs to a chosen merged candidate |
| Enumeration.MergedListedIff | src/cgame/model/cgame-inout-greedyMerged.cc:604-687 | A merged candidate is listed if and only if it sends the best item set, which brings something, to the ascending vector of a set of linked nodes |
| MergedSchedules.MergedScheduleFeasible | src/cgame/model/cgame-inout-greedyMerged.cc:223-245 | Whatever the weights, the merged scheduler reports at most one download per sender although it never checks |
| MergedSchedules.OneDownloadPerSender | src/cgame/model/cgame-inout-greedyMerged.cc:223-245 | A feasible choice gives downloads of different nodes |
| MergedSchedules.WeightIsWanted | src/cgame/model/cgame-inout-greedyMerged.cc:424-447 | A merged weight is the number of missing items over all receivers, modulo 256 |
| MergedScheduler.MergedScheduler.constructor | src/cgame/model/cgame-inout-greedyMerged.cc:25-52 | A new merged scheduler has no uploads, candidates or results |
| MergedScheduler.MergedScheduler.GetTTsForCertainReceivers | src/cgame/model/cgame-inout-greedyMerged.cc:633-687 | At most one merged candidate is appended for a receiver vector, with the best item set |
| MergedScheduler.MergedScheduler.GetAllTTsReduced | src/cgame/model/cgame-inout-greedyMerged.cc:604-631 | The merged candidates of all senders over all receiver vectors are appended in order |
| MergedScheduler.MergedScheduler.DominatedIndices | src/cgame/model/cgame-inout-greedyMerged.cc:188-204 | The double loop marks exactly the merged candidates dominated by an earlier one |
| MergedScheduler.MergedScheduler.EraseMarked | src/cgame/model/cgame-inout-greedyMerged.cc:211-220 | Erasing in place leaves the unmarked candidates in order |
| MergedScheduler.MergedScheduler.DeleteSameForAllTTs | src/cgame/model/cgame-inout-greedyMerged.cc:187-222 | On the candidates of a period the deletion changes nothing |
| MergedScheduler.MergedScheduler.GetWeightForEachTT | src/cgame/model/cgame-inout-greedyMerged.cc:424-447 | The weight array holds the running byte sums |
| MergedScheduler.MergedScheduler.SchedulingBegin | src/cgame/model/cgame-inout-greedyMerged.cc:128-186 | What is sent is the merged report of the uploads under their link table, with all nodes different, and the state is cleared |
| MergedScheduler.MergedScheduler.ReachesAny | src/cgame/model/cgame-inout-greedyMerged.cc:487-506 | The data-collision loop finds whether a sender reaches one of the receivers |
| MergedScheduler.MergedScheduler.PairConflicts | src/cgame/model/cgame-inout-greedyMerged.cc:455-532 | The decision for a pair, with its overriding clauses, is the conflict relation |
| MergedScheduler.MergedScheduler.CheckForConflict | src/cgame/model/cgame-inout-greedyMerged.cc:448-539 | The lower-triangle loop fills the whole table with the merged conflict graph |
| MergedScheduler.MergedScheduler.HandlingResults | src/cgame/model/cgame-inout-greedyMerged.cc:223-245 | The results are the downloads of the chosen candidates, all for different nodes |
| DcfTiming.BatchIsCountDown | src/wifi/model/dcf-manager.cc:577-597 | A batch counts what a slot-by-slot countdown counts if and only if the elapsed microseconds fit 32 bits or what is left of them covers all slots |
| DcfTiming.WrapStallsBackoff | src/wifi/model/dcf-manager.cc:589-591 | After 2^32 idle microseconds no slot is counted although all have passed |
| DcfTiming.UpdateTwice | src/wifi/model/dcf-manager.cc:577-597 | Updating at two times equals updating once at the later one if and only if the truncated elapsed time holds as many whole slots at the later one as at the earlier, or enough for the backoff |
| DcfTiming.UpdateIdempotent | src/wifi/model/dcf-manager.cc:577-597 | Updating again at the same time changes nothing |
| DcfTiming.UpdateKeepsEnd | src/wifi/model/dcf-manager.cc:561-597 | Updating never moves the end of a backoff |
| DcfTiming.ExpiredHasNoSlots | src/wifi/model/dcf-manager.cc:571-597 | After an update, an expired backoff has no slots left if and only if the batch was exact |
| DcfTiming.UpdateKeepsLog | src/wifi/model/dcf-manager.cc:577-597 | The slots counted so far are whole, disjoint, in order, and each began no earlier than the access grant start plus AIFSN slots then in force |
| DcfTiming.CountedHavePassed | src/wifi/model/dcf-manager.cc:589-594 | A slot is counted only after it has passed, wrap or not |
| DcfRuns.UpdateAllTwice | src/wifi/model/dcf-manager.cc:577-597 | The two-updates law for all states of the manager, with its exact condition |
| DcfRuns.FreshCovers | src/wifi/model/dcf-manager.cc:589-591 | The condition holds while the elapsed time fits 32 bits |
| DcfRuns.GrantPassExact | src/wifi/model/dcf-manager.cc:458-511 | After any update, a pass grants at most the first eligible state, each later eligible one gets exactly one internal collision, others stay as they are; a notified state has zero slots if and only if its count was exact |
| DcfRuns.RequestPassExact | src/wifi/model/dcf-manager.cc:431-456 | The same for the pass of a request, which may begin a backoff on a busy medium |
| DcfRuns.TimeoutCollisionsIff | src/wifi/model/dcf-manager.cc:108-115 | After the update of a timeout, the assertion that a new backoff finds no slots holds for every internal collision if and only if the colliding counts are exact |
| DcfRuns.RequestCollisionsIff | src/wifi/model/dcf-manager.cc:431-456 | The same for the pass of a request |
| DcfRuns.PassAllowedIff | src/wifi/model/dcf-manager.cc:458-511 | With timely receptions and positive SIFS a pass meets all the assertions of the code if and only if the colliding states have no slots left |
| DcfRuns.CollisionAfterWrap | src/wifi/model/dcf-manager.cc:577-597 | A concrete state in which the assertion fails: three of five slots are left after a wrap |
| DcfTimer.TimeoutsNeverMeetSlots | src/wifi/model/dcf-manager.cc:513-520 | While every requesting state is covered by the timer, a firing timer never meets a colliding state with slots left |
| DcfTimer.RequestsMeetNoSlots | src/wifi/model/dcf-manager.cc:431-456 | Nor does a request whose own count is exact |
| DcfRuns.GrantOnlyWhenIdle | src/wifi/model/dcf-manager.cc:407-428 | With timely reception ends and positive SIFS, a state is eligible only when the medium is not busy and no answer is awaited |
| DcfRuns.StepKeepsLogs | src/wifi/model/dcf-manager.cc:639-848 | Every event keeps the record of counted slots in order |
| DcfRuns.RunKeepsLogs | src/wifi/model/dcf-manager.cc:639-848 | Over any run the records stay in order |
| DcfRuns.GrantedAfterWholeBackoff | src/wifi/model/dcf-manager.cc:431-520 | A state is granted only after as many whole slots as its backoff had were counted or elapsed: disjoint, in order, each begun no earlier than the access grant start plus AIFSN slots then in force; no bound on elapsed time |
| DcfRuns.GrantedAllCountedIff | src/wifi/model/dcf-manager.cc:431-520 | All of them were counted if and only if the count was exact |
| DcfRuns.UpdateBeforeStep | src/wifi/model/dcf-manager.cc:431-848 | An extra update before an event that updates first leaves the next state unchanged |
| DcfRuns.SifsAfterFrame | src/wifi/model/mac-low.cc:733-742 | A SIFS after a received or sent frame, when the MAC starts timeouts outside a grant, is not after the access grant start |
| DcfRuns.DisciplinedIsEarly | src/wifi/model/mac-low.cc:728-772 | When a reception ends by its announced time, a timeout is reset by its end, or one starts no later than the access grant start, no backoff has begun, so an update changes nothing |
| DcfRuns.ExtraUpdateInvisible | src/wifi/model/dcf-manager.cc:431-848 | An extra update anywhere in a run, before an event that updates first or is used with that discipline, leaves the end of the run unchanged |
| DcfRuns.ExtraUpdateKeepsEndIff | src/wifi/model/dcf-manager.cc:649-666 | Before an event that changes the medium without updating first, an extra update keeps the end of a backoff if and only if the backoff had not begun, or its start stays, or is put off before the first slot |
| DcfRuns.TimeoutStartDiscardsSlots | src/wifi/model/dcf-manager.cc:822-827 | Why the discipline is needed: a caller that started an ACK timeout in the middle of a backoff would lose two elapsed slots |
| DcfQuiet.DuringExact | src/wifi/model/dcf-manager.cc:407-428 | The busy part of the time between two events holds exactly the instants at which a reception is on or an announced transmission, NAV, CCA, switching or awaited answer is not over |
| DcfQuiet.StepStaysQuiet | src/wifi/model/dcf-manager.cc:431-848 | Every event with durations that are not negative keeps all counted slots clear of all busy stretches so far, although it may let the medium be free earlier than announced |
| DcfQuiet.RunStaysQuiet | src/wifi/model/dcf-manager.cc:431-848 | Over any such run no counted slot holds an instant at which the medium was busy |
| DcfQuiet.GrantedAfterQuietSlots | src/wifi/model/dcf-manager.cc:431-520 | A state granted at the end of any such run has waited through its whole backoff in slots free of every busy instant of the run |
| DcfTimer.RestartArms | src/wifi/model/dcf-manager.cc:599-637 | Re-arming covers every requesting state if none has an expired backoff |
| DcfTimer.PassClearsIff | src/wifi/model/dcf-manager.cc:458-511 | A pass leaves no requesting state expired if and only if the grant starts a transmission or every colliding state draws a slot |
| DcfTimer.TimeoutArmsIff | src/wifi/model/dcf-manager.cc:513-520 | After the timer fires every requesting state is covered again if and only if the pass cleared |
| DcfTimer.RequestArmsIff | src/wifi/model/dcf-manager.cc:431-456 | After a request with no timer due every requesting state is covered if and only if the pass cleared |
| DcfTimer.ZeroDrawLosesWakeUp | src/wifi/model/dcf-manager.cc:458-520 | A concrete state: the granted one has nothing to send, the colliding one draws zero and is left expired without a timer |
| DcfTimer.StepStaysArmed | src/wifi/model/dcf-manager.cc:599-848 | Every event that does not let the medium be free earlier, and the three resets, keep each requesting state covered by a timer no later than its backoff end |
| DcfTimer.MediumEventSafeIff | src/wifi/model/dcf-manager.cc:639-840 | Each of the seven events of the medium keeps every covered manager covered if and only if it does not let the medium be free earlier |
| DcfTimer.Outrun | src/wifi/model/dcf-manager.cc:639-840 | Whenever the medium is free earlier there is a covered state whose backoff then ends before its timer |
| DcfTimer.RunStaysArmed | src/wifi/model/dcf-manager.cc:599-848 | Over any such run no wake-up is lost |
| DcfTimer.ShortReceptionOutrunsTimer | src/wifi/model/dcf-manager.cc:639-648 | A concrete reception of 44 microseconds after an erroneous one ends the wait long before the timer fires |
| DcfManager.WindowDoubles | src/wifi/model/dcf-manager.cc:94-99 | After k failures the window is 2^k times the smallest, up to the largest |
| DcfEvents.GrantStartIff | src/wifi/model/dcf-manager.cc:522-559 | The access grant start is at most t if and only if a SIFS has passed by t since the end of the last reception, announced or actual and extended only after errors, and since the CCA, transmission, NAV, ACK timeout, CTS timeout and switching ends |
| DcfEvents.EligibleIff | src/wifi/model/dcf-manager.cc:561-576 | A state may be granted at t if and only if it is requesting, its slots have passed since its backoff began, and a SIFS, its AIFSN slots and its slots have passed since each of these ends |
| DcfEvents.TxEndAfter | src/wifi/model/dcf-manager.cc:667-685 | The transmission end after any event: that of the transmission just begun, by a grant or a notification, and otherwise unchanged |
| DcfEvents.NavEndAfter | src/wifi/model/dcf-manager.cc:698-821 | The NAV end after any event: set by a reset, the later of the two after a start, cut by switching, otherwise unchanged |
| DcfEvents.CcaEndAfter | src/wifi/model/dcf-manager.cc:687-757 | The CCA and switching ends after any event |
| DcfEvents.TimeoutEndsAfter | src/wifi/model/dcf-manager.cc:698-848 | The ACK and CTS timeout ends after any event: announced by a grant or a start, ended by a reset, cut by switching, otherwise unchanged |
| DcfEvents.ReceptionAfter | src/wifi/model/dcf-manager.cc:639-757 | Whether a reception is on after any event, until when, and how the last one ended; transmissions and switching cut it short as correct |
| DcfEvents.NavIsObeyed | src/wifi/model/dcf-manager.cc:807-821 | After a NAV start no request is served before the announced end of the NAV, nor before the end it had |
| DcfEvents.BackoffsLeftAlone | src/wifi/model/dcf-manager.cc:649-848 | Reception ends, sleep and timeout events leave every backoff as it was |
| DcfEvents.BackoffsCounted | src/wifi/model/dcf-manager.cc:639-696 | Events that make the medium busy count the slots that passed before them, under the medium they found, and do nothing else to backoffs |
| DcfEvents.BackoffBegins | src/wifi/model/dcf-manager.cc:108-115 | A new backoff has all its slots, starts now, and leaves the request and all other states alone |
| DcfEvents.BackoffsDropped | src/wifi/model/dcf-manager.cc:698-790 | Switching and wake-up leave no slot and no request and the smallest window |
| DcfEvents.RequestBackoff | src/wifi/model/dcf-manager.cc:431-456 | The backoff of a state after its request: if the medium is busy and no slot is left, exactly the slots drawn, from now on; if the state is due but an earlier one is served, those of its internal collision; in every other case what the update left |
| DcfEvents.CollisionWaits | src/wifi/model/dcf-manager.cc:431-456 | A request on a busy medium with no slots left is not served before the slots it drew have passed |
| DcfEvents.RestartExact | src/wifi/model/dcf-manager.cc:599-637 | Re-arming leaves the earlier of the old timer and the first backoff end ahead, and the old timer if there is none |
| DcfEvents.TimerAfter | src/wifi/model/dcf-manager.cc:431-848 | The timer and the sleep flag after any event: which events re-arm it, turn it off, or leave it alone |
| DcfManager.DcfState.SetAifsn | src/wifi/model/dcf-manager.cc:56-60 | The AIFSN is set |
| DcfManager.DcfState.SetCwMin | src/wifi/model/dcf-manager.cc:61-66 | Setting the smallest window resets the window |
| DcfManager.DcfState.SetCwMax | src/wifi/model/dcf-manager.cc:67-72 | Setting the largest window resets the window to the smallest |
| DcfManager.DcfState.UpdateFailedCw | src/wifi/model/dcf-manager.cc:94-99 | One failure |
| DcfManager.DcfState.UpdateBackoffSlotsNow | src/wifi/model/dcf-manager.cc:100-106 | Counts slots off without going below zero and moves the start |
| DcfManager.DcfState.StartBackoffNow | src/wifi/model/dcf-manager.cc:108-115 | A new backoff begins only with no slots left |
| DcfManager.DcfState.NotifyAccessGranted | src/wifi/model/dcf-manager.cc:142-148 | A grant ends the request |
| DcfManager.DcfManager.constructor | src/wifi/model/dcf-manager.cc:270-294 | The initial manager, with slot time and interframe spaces set |
| DcfManager.DcfManager.Add | src/wifi/model/dcf-manager.cc:351-355 | States are kept in the order they are added; one added twice is accepted, but later methods assume there is none |
| DcfManager.DcfManager.UpdateBackoff | src/wifi/model/dcf-manager.cc:577-597 | The loop updates every state as the law above says |
| DcfManager.DcfManager.EndOf | src/wifi/model/dcf-manager.cc:561-575 | The backoff end of a state |
| DcfManager.DcfManager.FindEligible | src/wifi/model/dcf-manager.cc:462-467 | The scan stops at the first eligible state |
| DcfManager.DcfManager.InternalCollisions | src/wifi/model/dcf-manager.cc:476-492 | The second scan collects exactly the later eligible states, in order |
| DcfManager.DcfManager.NotifyCollisions | src/wifi/model/dca-txop.cc:493-506 | Each colliding state starts a backoff with its own draw, once |
| DcfManager.DcfManager.DoGrantAccess | src/wifi/model/dcf-manager.cc:458-511 | Under the assertions of the code alone, the whole pass is the step the theorems are about |
| DcfManager.DcfManager.ExpectedBackoffEnd | src/wifi/model/dcf-manager.cc:607-621 | The loop finds the earliest backoff end still ahead |
| DcfManager.DcfManager.DoRestartAccessTimeoutIfNeeded | src/wifi/model/dcf-manager.cc:599-637 | A timer that is off or too late is set to that end |
| DcfManager.DcfManager.RequestAccess | src/wifi/model/dcf-manager.cc:431-456 | Under the assertions of the code alone, a request is the step of the model, including the collision on a busy medium |
| DcfManager.DcfManager.AccessTimeout | src/wifi/model/dcf-manager.cc:513-520 | Under the assertions of the code alone, a timeout is the step of the model |
| DcfManager.DcfManager.NotifyRxStartNow | src/wifi/model/dcf-manager.cc:639-647 | Reception start is the step of the model |
| DcfManager.DcfManager.NotifyRxEndOkNow | src/wifi/model/dcf-manager.cc:649-656 | Reception end is the step of the model |
| DcfManager.DcfManager.NotifyRxEndErrorNow | src/wifi/model/dcf-manager.cc:658-665 | Reception end with errors is the step of the model |
| DcfManager.DcfManager.NotifyTxStartNow | src/wifi/model/dcf-manager.cc:667-685 | A transmission cuts a reception short and is the step of the model |
| DcfManager.DcfManager.NotifyMaybeCcaBusyStartNow | src/wifi/model/dcf-manager.cc:687-695 | A busy channel is the step of the model |
| DcfManager.DcfManager.NotifySwitchingStartNow | src/wifi/model/dcf-manager.cc:698-756 | Channel switching cuts every pending time and drops every backoff and request |
| DcfManager.DcfManager.NotifySleepNow | src/wifi/model/dcf-manager.cc:758-768 | Sleep cancels the timer |
| DcfManager.DcfManager.NotifyWakeupNow | src/wifi/model/dcf-manager.cc:770-788 | Wake-up drops every backoff and request |
| DcfManager.DcfManager.NotifyNavResetNow | src/wifi/model/dcf-manager.cc:790-805 | A NAV reset updates, may shorten the NAV, and re-arms |
| DcfManager.DcfManager.NotifyNavStartNow | src/wifi/model/dcf-manager.cc:807-820 | A NAV start only ever extends the NAV |
| DcfManager.DcfManager.NotifyAckTimeoutStartNow | src/wifi/model/dcf-manager.cc:822-827 | An ACK timeout begins |
| DcfManager.DcfManager.NotifyAckTimeoutResetNow | src/wifi/model/dcf-manager.cc:829-834 | An ACK timeout ends early and the timer is re-armed |
| DcfManager.DcfManager.NotifyCtsTimeoutStartNow | src/wifi/model/dcf-manager.cc:836-840 | A CTS timeout begins |
| DcfManager.DcfManager.NotifyCtsTimeoutResetNow | src/wifi/model/dcf-manager.cc:842-847 | A CTS timeout ends early and the timer is re-armed |
| Scoreboard.OldIffBefore | src/wifi/model/qos-utils.cc:86-92 | Within half the number space, the half-range test says exactly whether a number lies before the window |
| Scoreboard.ShapeKept | src/wifi/model/block-ack-cache.cc:42-92 | Every operation keeps the window length, so the size assertions hold |
| Scoreboard.MpduBeyondWindow | src/wifi/model/block-ack-cache.cc:49-61 | Beyond the window, an MPDU is followed if and only if the entry it reuses holds no other fragment |
| Scoreboard.MpduFollows | src/wifi/model/block-ack-cache.cc:42-63 | An MPDU keeps the array in agreement with the unbounded record if and only if it is old, in the window, or reuses an entry free of other fragments |
| Scoreboard.BarFollows | src/wifi/model/block-ack-cache.cc:65-92 | A block ack request always keeps the agreement |
| Scoreboard.UnfragmentedRunAgrees | src/wifi/model/block-ack-cache.cc:33-104 | For unfragmented MPDUs mixed with requests, over any number of wraps, each window entry says exactly whether its number was received |
| Scoreboard.StaleFragment | src/wifi/model/block-ack-cache.cc:54-61 | A fragment from an earlier lap survives: four MPDUs after which the agreement fails |
| Scoreboard.StartAgrees | src/wifi/model/block-ack-cache.cc:32-40 | The initial cache agrees with the empty record |
| Scoreboard.WindowFromEvents | src/wifi/model/block-ack-cache.cc:42-92 | The window of the record starts at the furthest start that any event asked for |
| Scoreboard.RecordFromEvents | src/wifi/model/block-ack-cache.cc:42-63 | The record holds exactly the fragments that arrived while their number was not behind the window |
| Scoreboard.BlockAckCache.constructor | src/wifi/model/block-ack-cache.cc:32-40 | The window size is capped at 64 and the array is clear; a size of zero is accepted and leaves a window that no operation allows |
| Scoreboard.BlockAckCache.ResetPortionOfBitmap | src/wifi/model/block-ack-cache.cc:94-104 | The circular loop clears exactly the entries from start forward to end |
| Scoreboard.BlockAckCache.UpdateWithMpdu | src/wifi/model/block-ack-cache.cc:42-63 | The update in place is the step of the model |
| Scoreboard.BlockAckCache.UpdateWithBlockAckReq | src/wifi/model/block-ack-cache.cc:65-92 | The request in place is the step of the model |
| BlockAckHistory.InitialStands | src/wifi/model/block-ack-cache.cc:32-40 | The initial array stands for the empty record |
| BlockAckHistory.RunStands | src/wifi/model/block-ack-cache.cc:33-104 | Over any unfragmented run the whole array stands for the record: each of the last 4096 numbers has its own fragments in its entry or, if a request jumped over it, what the number a lap before left there |
| BlockAckHistory.EntryFrom | src/wifi/model/block-ack-cache.cc:83-104 | An entry comes from the latest number of its residue that was not jumped over |
| BlockAckHistory.SkippedNeverReceived | src/wifi/model/block-ack-cache.cc:83-90 | A number jumped over lies behind the window for good and is never received |
| BlockAckHistory.OldResponse | src/wifi/model/block-ack-cache.cc:66-136 | An old request changes nothing and is answered from the entries as they are |
| BlockAckHistory.ResponseFromHistory | src/wifi/model/block-ack-cache.cc:66-136 | The answer to any request, old or not, in terms of what was received |
| BlockAckHistory.ResponseRightIff | src/wifi/model/block-ack-cache.cc:66-136 | The answer is right about a number if and only if no request jumped over it, it is outside this request, or the entry it inherits from laps before is not a received packet |
| BlockAckHistory.DroppedFromHistory | src/wifi/model/block-ack-manager.cc:385-409 | End to end for any request and every queued packet: which packets are dropped, in terms of what was received |
| BlockAckHistory.DroppedUnreceivedIff | src/wifi/model/block-ack-manager.cc:385-409 | A packet is dropped unreceived if and only if its number was jumped over, lies in the request, and inherits a received packet from laps before |
| BlockAckHistory.SkippedAcknowledged | src/wifi/model/block-ack-cache.cc:83-136 | A concrete run after which an old request is told that a number never received has arrived |
| BlockAckResponse.BlockAckHeader.SetReceivedPacket | src/wifi/model/ctrl-headers.cc:599-631 | A number within 64 of the start sets its bit, any other changes nothing |
| BlockAckResponse.FillBlockAckBitmap | src/wifi/model/block-ack-cache.cc:113-136 | The circular loop copies the window from the response's number on |
| BlockAckResponse.FilledExact | src/wifi/model/ctrl-headers.cc:667-685 | A fresh response acknowledges exactly the window numbers whose entry is one whole packet |
| BlockAckResponse.ResponseExact | src/wifi/model/block-ack-cache.cc:65-141 | After a request that is not old, a response acknowledges exactly the received numbers of the requested window |
| BlockAckResponse.LostExact | src/wifi/model/block-ack-manager.cc:385-409 | A packet stays queued exactly when it is not acknowledged |
| BlockAckResponse.LostOfParts | src/wifi/model/block-ack-manager.cc:385-409 | The pass looks at each packet on its own and keeps the order |
| BlockAckResponse.LostOfOne | src/wifi/model/block-ack-manager.cc:390-409 | A single packet stays queued unless it is acknowledged |
| BlockAckResponse.Originator.EraseSame | src/wifi/model/block-ack-manager.cc:390-395 | The inner loop erases the run of packets with the acknowledged number |
| BlockAckResponse.Originator.NotifyGotBlockAck | src/wifi/model/block-ack-manager.cc:385-409 | The queue pass keeps exactly the unacknowledged packets in order, appends them to the retry list, and moves the starting sequence to the first of them |
| BlockAckResponse.DroppedExactlyReceived | src/wifi/model/block-ack-manager.cc:385-409 | End to end over any unfragmented run: a queued packet is dropped if and only if it lies in the requested window and was received; nothing unreceived is ever dropped |
| Interference.CompactionInvisible | src/wifi/model/interference-helper.cc:205-214 | Folding old changes into the base power does not change the power from the present on |
| Interference.AppendRepresents | src/wifi/model/interference-helper.cc:201-221 | An appended event adds its power over its own interval and nothing else; the list stays sorted and its deltas cancel the base power |
| Interference.RunRepresents | src/wifi/model/interference-helper.cc:201-221 | Over any run of arrivals, reception starts and ends, and erasures, the prefix sums give the true power from the last compaction on |
| Interference.OpeningOpens | src/wifi/model/interference-helper.cc:201-221 | An event that arrives outside a reception becomes the first change, with its end recorded |
| Interference.AppendKeepsOpened | src/wifi/model/interference-helper.cc:215-219 | Later arrivals keep it first |
| Interference.NoiseIsOtherPower | src/wifi/model/interference-helper.cc:238-254 | For the event that opened reception, the noise list gives at every instant of the packet exactly the power of the other events |
| Interference.NoiseListSpansPacket | src/wifi/model/interference-helper.cc:238-254 | The noise list runs, sorted, from the start to the end of the packet |
| Interference.InterferenceHelper.AddNiChangeEvent | src/wifi/model/interference-helper.cc:574-578 | A change is inserted after all changes up to its time |
| Interference.InterferenceHelper.AppendEvent | src/wifi/model/interference-helper.cc:201-221 | The loop and the two insertions in place are the step of the model |
| Interference.InterferenceHelper.NotifyRxStart | src/wifi/model/interference-helper.cc:579-583 | A reception begins |
| Interference.InterferenceHelper.NotifyRxEnd | src/wifi/model/interference-helper.cc:584-588 | A reception ends |
| Interference.InterferenceHelper.EraseEvents | src/wifi/model/interference-helper.cc:561-567 | Erasing gives the empty record |
| Interference.InterferenceHelper.CalculateNoiseInterferenceW | src/wifi/model/interference-helper.cc:238-254 | The loop with its break returns the base power and the noise list |
| PacketErrorRate.ChunksExact | src/wifi/model/interference-helper.cc:295-532 | The five-level case split covers each instant between two changes once in its own mode and in no other |
| PacketErrorRate.EveryInstantOnce | src/wifi/model/interference-helper.cc:269-534 | Over a whole list every instant is counted exactly once in the mode it belongs to |
| PacketErrorRate.ChunkNoise | src/wifi/model/interference-helper.cc:291-532 | A chunk carries the noise in force at each of its instants |
| PacketErrorRate.ChunkNoiseIsOtherPower | src/wifi/model/interference-helper.cc:238-534 | From arrivals to chunks: every chunk of a received packet is evaluated under exactly the power of the other events |
| PacketErrorRate.DurationsExact | src/wifi/model/interference-helper.cc:269-534 | The durations per mode are the exact overlap with that mode's segment, so extra change points alter nothing |
| PacketErrorRate.LayoutFits | src/wifi/model/wifi-phy.cc:113-328 | The computed segment times fit the case split if and only if a greenfield preamble comes with an HT payload |
| PacketErrorRate.GreenfieldHeaderBreaks | src/wifi/model/interference-helper.cc:295-532 | Outside that condition one extra change of power zero alters the durations |
| PacketErrorRate.SplitExactIff | src/wifi/model/wifi-phy.cc:113-328 | For the computed segment times, the durations of every mode are exact for every list of changes if and only if a greenfield preamble comes with an HT payload |
| PacketErrorRate.PayloadOffset | src/wifi/model/wifi-phy.cc:113-328 | Where the payload begins after the start of the packet: 20, 40 or 80 microseconds for OFDM by bandwidth, 20 for ERP-OFDM, 96 or 192 for DSSS, and the HT formulas with their training symbols |
| PacketSuccess.ChunksRate | src/wifi/model/interference-helper.cc:295-532 | Between two changes, the chunks of a mode succeed as one stretch of the exact length of that mode's share |
| PacketSuccess.ProductIsSuccess | src/wifi/model/interference-helper.cc:269-534 | For a model that is multiplicative in time, the product over the chunks is the product over all instants of the packet, each in the mode it belongs to and under the noise at that instant |
| PacketSuccess.ExtraChangeInvisible | src/wifi/model/interference-helper.cc:269-534 | An extra change of power zero leaves the success of the packet unchanged |
| PacketSuccess.SuccessFromEvents | src/wifi/model/interference-helper.cc:238-534 | From arrivals to the success of a received packet: every instant counts once, in its own mode, under exactly the power of the other events |
| PacketSuccess.CalculatePer | src/wifi/model/interference-helper.cc:256-540 | The loop returns one minus the product over the chunks, which for such a model is one minus the product over modes and instants |

## Left out

- Floating point: powers, capacities, ratios and rates are exact reals; rounding is not modelled.
- Positions and square roots: distances are given as a table of reals.
- Nothing is claimed about how many items a round of the merged variant delivers, because its weights ignore link capacity and wrap at 256; its safety and its bound hold for any weights.
- The merged object holds a plain scheduler object for the fields and loops that the two source files repeat word for word (subset recursions, item scan, capacity table).
- The linear-programming variant: the solver is not part of this model. The variants that reuse the same loops, and the re-optimisation in greedyImproved, are not modelled.
- Random draws: initial caches, backoff draws and the delivery order of a round are parameters. That every chosen receiver hears its sender is an assumption of the gain theorems only.
- Links.AllInRangeSelectedIff: assumes, like the other neighbour results, that the start value of the minimum search, 100000 times the range around RSUs, is not below either range.
- Node identifiers are 0 to n-1, as the code assumes, and items fit a byte.
- Simulator events, logging, traces and the PHY: time is an integer in nanoseconds and the access timer an optional expiry time. A transmit opportunity is a parameter: nothing to send, or a transmission with the answer it awaits.
- Products of slots and slot time are not wrapped to 32 bits; only the elapsed time is, as it is the one that grows without bound.
- The fields of the manager for the last medium events are kept in one record, and each backoff carries a record of its counted slots that the code does not have and that changes nothing else.
- DcfRuns.GrantOnlyWhenIdle: assumes that a reception end is reported by its announced time and SIFS is positive, because a late report leaves the medium marked as receiving.
- DcfRuns.GrantPassExact: assumes that durations and timeouts are not negative, because the callbacks of the low MAC are not part of this model.
- DcfQuiet.GrantedAfterQuietSlots: assumes durations that are not negative and receptions that end by their announced time, as a late report leaves the medium marked as receiving after its access grant start.
- DcfRuns.ExtraUpdateInvisible: leaves out events that update nothing and drop or begin backoffs (switching, sleep, wake-up, a new backoff).
- Scoreboard.BlockAckCache.UpdateWithMpdu: assumes, like the other operations, a window of at least one number, as the size assertion of the source cannot hold otherwise.
- Uploads are kept by value: an entry shows the latest report of its node, as the shared upload object does.
- Scoreboard.MpduFollows: numbers more than half the number space from the window start are outside the agreement, since 12 bits cannot tell them from others.
- BlockAckResponse.ResponseExact: acknowledges entries that hold exactly fragment 0; other fragments are never acknowledged by a compressed response.
- Basic and multi-TID block acks, which the code refuses, and the rest of the block ack manager: agreement lifecycle, retry queue and clean-up.
- Bit words are sets of the positions of set bits.
- Error-rate formulas: the success rate of a chunk is a parameter, except that an empty chunk always succeeds.
- PacketSuccess.CalculatePer: the value over instants is for models in which success over a time is success over its parts; the bits of a chunk, truncated to a whole number inside that parameter, keep to this only up to one bit per chunk.
- GetEnergyDuration is not modelled.
- Header encodings, rate managers and the remaining MAC classes.
