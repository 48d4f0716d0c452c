# A verified model of the plan-based scheduler

The scheduler keeps, for every cluster, a complete plan of the future: when each
known job starts, on which CPU slots, which idle time is left in front of and
behind the jobs, and how many CPUs every account holds at every instant. The plan
is rebuilt in every cycle by walking the job list once. Four representations of
the same plan are updated side by side in that walk, and have to agree: the table
of slot times, the list of gaps, the timeline of limits and the linked job list.

This project models that walk with the source's own data structures, updated in
place, and proves what the four representations guarantee about each other.

| file | models |
|---|---|
| `PlanList.dfy` | the doubly linked list behind jobs, gaps and limits, as a refinement of a sequence |
| `SlotTable.dfy`, `SlotBooking.dfy` | the slot table: how it is filled from the nodes, how a job takes slots |
| `SlotSelection.dfy`, `SlotRuns.dfy` | the parts of the selection loop over availability marks; its runs, and the selection itself |
| `SlotFit.dfy` | when a job can have its slots, in terms of idle slots per node |
| `SlotLoss.dfy` | when the slots that a run records are the ones it gives |
| `LossyTables.dfy`, `SlotOrder.dfy` | tables in the order of times for which they are not, and why the numbering of slots does not matter there |
| `NodeTables.dfy`, `NodeLoss.dfy` | the same tables as tables of nodes, and which requests never lose a slot |
| `MemoryShapes.dfy` | which requests are started as early as slots with the memory exception allow |
| `Gaps.dfy`, `GapEmission.dfy` | intervals of idle CPUs with a usage profile, their insertion, and their emission from the slot table |
| `Limits.dfy` | the timeline of CPUs held by accounts and walltime classes, and the delay it imposes |
| `LimitRuns.dfy`, `LimitOrder.dfy` | what the limits guarantee over a whole run, and how the order of the jobs decides it |
| `PlanJobs.dfy`, `JobPlanning.dfy` | job records, and planning one queued job |
| `PlanSafety.dfy`, `PlanRebuild.dfy` | what every step of a run keeps, and the run itself |
| `OneCpu.dfy`, `NodeLoad.dfy` | what the jobs of a plan put on each node, and which requests never put too much there |
| `TimelineSlots.dfy` | the timeline of limits against the slot table |
| `JobOrder.dfy`, `SchedUpdate.dfy` | the prioritisation pass, job positions, a whole cycle of a cluster, and cycles until no job is dropped |
| `Retry.dfy`, `PinnedRuns.dfy` | what the cycle after a dropped job does to the jobs planned before |
| `Optimization.dfy` | backup and restoration of the job order and of fixed nodes |
| `JobInfos.dfy`, `Fairshare.dfy`, `Comparators.dfy` | picking and ordering jobs by fair share and by sort keys |
| `Clusters.dfy` | incremental grouping of nodes into clusters |
| `RunningCounters.dfy` | cached counts of running jobs and cores |

## Main results

* **Safety of a whole run** (`PlanRebuild.RebuildPlan`, `SchedUpdate.UpdateSched`,
  `SchedUpdate.UpdateUntilPlanned`, all with the postcondition `PlanSafety.SafePlan`).
  Every node of a planned job has given slots of its own that are free when the job
  starts, and no two jobs overlap on a recorded slot. As long as no job has recorded
  a slot twice the books balance exactly: at every instant up to the end of the gaps,
  gaps + recorded slots of planned jobs + slots that wait for a delayed job + running
  jobs are the CPUs in service, in all and for the slots of every node, and besides
  these only the blank slots of nodes that are reserved, busy or unknown, which the
  last gaps count as idle. The timeline is the jobs' bookings, account by account, and
  the plain sum over jobs for every instant, account and walltime class. The loop that
  repeats a cycle after a job was dropped terminates, and a job that is not queued is
  never dropped. The timeline counts the same CPUs as the slot table
  (`TimelineSlots.TimelineCountsSlots`), and the cores that a job is given are idle when
  it starts, in terms of the jobs that run on them (`SchedUpdate.PlannedOnIdleCores`).
* **No node is overloaded** (`NodeLoad.NodesHold`): on every node and at every instant,
  the CPUs per node of the planned jobs that have the node among theirs, with
  multiplicity, and the running jobs need no more cores than are in service there. This
  holds for every plan whose requests are for one node, for one CPU per node, or for two
  CPUs per node without memory exceptions (`NodeLoad.SafeRequestsHold`, part of the
  postcondition of `SchedUpdate.UpdateSched`), where recorded slots and load are the same
  (`NodeLoad.HeldIsLoad`), and for no other shape of requests: `NodeLoad.NeverOverloadsIff`.
* **Every job has its best plan** (`PlanSafety.WellPlanned`, a postcondition of the
  same three methods). In the finished plan each job starts no later than any instant
  at which the slot table that the jobs in front of it leave has slots for all its
  places, and for one node, or when no slot depends on the memory exception, at the
  least such instant; to this comes the least delay that the bookings of these jobs
  demand. If the job is fixed to nodes when the cycle begins, the least start is
  the least one on these nodes; after a job's first plan they are its own. Every job
  that is dropped on the way finds no instant at all with slots for its places in the
  table that the jobs in front of it leave (`SchedUpdate.Chain`).
* **After a dropped job** the jobs planned in front of it stay fixed to the nodes of
  the aborted plan. The next cycle still gives every job the best start of its own
  request, whatever the nodes and the order of the jobs, if and only if the jobs planned
  in front of the dropped one were all fixed to nodes before, or there was at most one
  of them (`PinnedRuns.RetryIff`).
* **Optimal selection** (`SlotRuns.SelectSlots`). For any number of nodes, whether the
  job is fixed to nodes or not, the loop of picking, switching nodes and retrying sets
  a start no later than any instant at which nodes have enough slots for all places of
  the job, and fails only when there is no such instant; for one node, and when no slot
  depends on the memory exception, it sets the earliest such instant and fails exactly
  when there is none. Slots that depend on the exception count when a slot of the same
  node that does not is later and idle by then, for nodes that have a single place and
  for places of a single CPU (`SlotSelection.RoomOn`). `SlotFit.CanStartIffPlaces`
  puts the instant into numbers: the sum over all nodes of usable slots divided by
  CPUs per node. If such slots are to count for every place, the loop misses no instant
  if and only if the request is for one node or for one CPU per node
  (`MemoryShapes.NeverMissesIff`). Every node gives slots of its own, all of them free
  at the start, and those given by the exception before it; a job that is fixed to nodes
  gets exactly these, with multiplicity. The loop terminates although a switch throws
  picks away (`SlotSelection.PickDecreases`).
* **The recorded slots are the given ones** exactly when every switch of nodes finds no
  pick earlier than a given slot (`SlotRuns.SwitchKeepsIff` for one switch,
  `SlotLoss.RunExactIff` for a whole run), and for all nodes exactly when the request
  is for one node, for one CPU per node, or for two CPUs per node without memory
  exceptions (`NodeLoss.NeverLosesIff`).
* **Limits, exactly.** The delay is minimal (`Limits.AdjustJobStarttime`), and booking
  a job charges exactly that job (`Limits.AddJobToLimits`). A run, as far as limits are
  concerned, is a list of job records in which every planned job starts now or later,
  where the jobs in front of it let it, and running jobs have started and complete
  later than now, as plan_schedule.cpp:779-781 sees to (`LimitRuns.RunAt`, which
  finished plans satisfy: `SchedUpdate.PlanIsRun`). In
  every run, planned jobs of a class stay within its limit, when that is not negative,
  if and only if each of them does so alone (`LimitRuns.PlannedWithinTotalIff`); jobs in a given order of states keep the limit
  of all jobs together, in every run, if and only if no running job stands behind a
  planned one (`LimitOrder.RunningFirstIff`); and planned jobs in a given order of
  states and accounts find room under the limits of their own accounts, in every run,
  if and only if no planned job belongs to one of two accounts that come in descending
  order in front of it (`LimitOrder.AscendsIff`).
* **Gap insertion adds exactly one gap** to the usage profile, for every instant and
  node, and keeps the list sorted, disjoint and consistent (`Gaps.InsertNewGap`).
* **The prioritisation pass** reorders the list it is walking over and still ends
  with the reversed prioritised jobs in front of the others in order
  (`JobOrder.Prioritise`).
* **Backup and restoration** bring back the saved order whatever has happened to
  the links (`Optimization.RestoreJobOrder`, `Optimization.TryMoveAndRestore`).
* **Strict weak orders compose**: comparing by any sequence of them is one again
  (`Comparators.LexicographicIsOrder`), which covers sorting by several keys.
* **Indexed forms agree with plain ones**: fair share by owner with a full scan,
  cached counters with a recount after any sequence of calls, incremental
  clustering with a group-by that does not depend on the order of arrival.

## What the proofs brought to light

* `limit_add_account` never compares a new account with the one at index 0
  (plan_limits.cpp:145), so an id below the first one is misplaced and not found
  again (`Limits.AccountBelowFirstIsLost`); the first account may get lost along with
  it (`Limits.ThreeBehindFive`). `Limits.AddKeepsOrderIff` states exactly when the
  order survives. Amounts are therefore sums over all entries of an account. The check
  against a user's own limit is skipped for an account that the search does not find:
  `Limits.UnblockedHasUserRoom` states when it counts, and `LimitOrder.AscendsIff`
  which orders of the jobs guarantee that, with a run that breaks the limit for every
  other order.
* A job above the limit of its class is not refused: it is planned where nothing is
  recorded, at once if it is the first one (`LimitOrder.TooLargeIsPlanned`). This is the
  only way for planned jobs alone to pass that limit (`LimitRuns.PlannedWithinTotalIff`).
* For a job on several nodes, `cpu_indexes` can lose a slot that the job was given
  and name another slot twice, because the insertion by time
  (plan_operations.cpp:434-440) crosses the boundary at which a switch of nodes
  truncates (plan_operations.cpp:416). `NodeLoss.ThreeLoses` has nodes whose table makes
  every request of two nodes or more with three CPUs per node or more lose a slot, and
  `NodeLoss.ExceptionLoses` nodes that do so for two CPUs per node and a slot with the
  memory exception; all other requests are safe (`NodeLoss.NeverLosesIff`). In
  `NodeLoss.RecordedTwice`, two nodes free at 3, 5, 0, 0 and at 6, 4, 0 and a request of
  two nodes with three CPUs each, slot 6 is recorded twice.
* For a second place on a node the loop does not see slots that fit below a slot of the
  first one (plan_operations.cpp:57-73): `MemoryShapes.OtherShapeMisses` has a node whose
  slots would all fit in the end, in number enough for all places, and the loop fails.
* What is booked is what is recorded, so a given slot that was lost is free for others.
  For every such shape of requests `NodeLoad.OtherShapeOverloads` has nodes and a plan of
  two jobs that needs more cores of a node than it has.
* A cycle that drops a job leaves the jobs in front of it fixed to the nodes they were
  given (plan_operations.cpp:468-471), and the pass of the next cycle reverses the
  prioritised ones again. In `PinnedRuns.SecondIsPinned` the second of two jobs comes
  first in the retry, with nothing booked, and starts at 5 although a node is free at 0
  and its request was not for any node in particular.
* The prioritisation pass moves queued jobs in front of running ones. Then the limit
  of all jobs together may be exceeded: `LimitOrder.LateRunningExceeds` is a run for
  every order with a running job behind a planned one, in which running jobs have
  started and planned ones have not.
* The last gaps count slots of reserved, busy and unknown nodes as idle
  (plan_gaps_memory.cpp:109-114): they skip only nodes that are down, offline or not
  usable. `SlotTable.TableInServiceIff` states when there are none of these.
* `number_of_running_cores_for_group` and its counterpart for users store core
  counts among the job counts (queue_info.cpp:205, queue_info.cpp:218). The two
  members that model them state exactly when their answer is right and when the
  caches stay coherent.
* `is_prefix` (plan_schedule.cpp:231-239) also accepts a first string that is a
  beginning of the second, so a property such as `m` counts as a walltime bound and
  does not separate clusters.
* `compare_fairshare` is a strict weak order on jobs, but a null in the vector spoils
  it as soon as two jobs differ (`Fairshare.OrdersIff`).

## Model

| member | source | states |
|---|---|---|
| PlanLists.PlanList.constructor | plan_list_operations.cpp:26-46 | a new list is empty and well formed |
| PlanLists.PlanList.GetFirst | plan_list_operations.cpp:73-80 | returns and makes current the first item of the sequence, if any |
| PlanLists.PlanList.GetLast | plan_list_operations.cpp:82-89 | returns and makes current the last item of the sequence, if any |
| PlanLists.PlanList.GetNext | plan_list_operations.cpp:91-101 | steps to the next position of the sequence; from no current item to the first |
| PlanLists.PlanList.GetPrevious | plan_list_operations.cpp:103-113 | steps to the previous position of the sequence; from no current item to the last |
| PlanLists.PlanList.AddInFrontOf | plan_list_operations.cpp:188-225 | the sequence with the item inserted in front of another one, or first; links, ends and count agree with it |
| PlanLists.PlanList.AddInBackOf | plan_list_operations.cpp:227-264 | the sequence with the item inserted behind another one, or last; links, ends and count agree with it |
| PlanLists.PlanList.AddBegin | plan_list_operations.cpp:266-291 | the sequence with the item in front |
| PlanLists.PlanList.AddEnd | plan_list_operations.cpp:293-318 | the sequence with the item at the end |
| PlanLists.PlanList.GetItem | plan_list_operations.cpp:320-340 | reached from the nearer end, the item at a position, or null outside the list |
| PlanLists.PlanList.RemoveItem | plan_list_operations.cpp:354-401 | the sequence without the item; a kept record leaves with null links |
| PlanLists.PlanList.MoveItem | plan_list_operations.cpp:408-421 | the sequence without the item, with the item behind its new predecessor or in front |
| PlanLists.PlanList.Append | plan_list_operations.cpp:48-71 | the concatenation of both sequences |
| PlanLists.PlanList.ReplaceItem | plan_list_operations.cpp:441-481 | one position of the sequence is exchanged exactly when both items are there and the new one is another, unlinked one; an item that is already in the list is refused |
| SlotTable.FirstFreeSlots | plan_first_free_slot.cpp:23-190 | the table has one slot per core with the time at which it becomes free; also counts the CPUs that are not blank |
| SlotTable.TableTimes | plan_first_free_slot.cpp:78-190 | slots belong to their nodes; those of blank nodes are at -1, no other time lies before now |
| SlotTable.TableInServiceIff | plan_gaps_memory.cpp:98-156 | the gaps behind the last job can use the table if and only if no node with cores is blank without being down, offline or not usable |
| SlotTable.CoresOfTable | plan_first_free_slot.cpp:78-190 | each core of a node in service is free now if no job runs on it, and behind now from the instant on when its job has started for as long as its walltime; cores of nodes that are down, offline, not usable, unknown, reserved or busy are never free |
| SlotBooking.FirstFreeSlotsUpdate | plan_first_free_slot.cpp:192-289 | exactly the slots of the job become free at its completion, however often the update is repeated |
| SlotBooking.BookingCovers | plan_operations.cpp:595-625 | booking makes busy, at every instant and node, exactly what the gaps in front show, what waits for a delayed start, and what the job holds |
| SlotBooking.BusyOrFree | plan_first_free_slot.cpp:78-190 | at every instant a slot in service is either busy or free |
| SlotSelection.IthSmallest | plan_operations.cpp:38-91 | picks the first of the earliest candidates and marks it; no slot marked 0 is earlier, nor one marked -4 below the latest pick of the node being filled, or of all picks when none is; -1 exactly when there is no candidate |
| SlotSelection.PickDecreases | plan_operations.cpp:378-507 | every pick decreases (slots never picked, slots picked by an earlier attempt), so the loop ends for every table |
| SlotSelection.InsertIndex | plan_operations.cpp:433-440 | puts a slot into the recorded indexes and keeps them in the order of times |
| SlotRuns.SwitchKeepsIff | plan_operations.cpp:411-440 | a switch of nodes keeps exactly the given slots recorded if and only if no pick that it throws away is earlier than a given slot |
| SlotRuns.PacedPick | plan_operations.cpp:51-90 | the slot picked last of those without exception is the latest ever picked, and later than all picked by the exception; earlier attempts never leave picks enough on a node, and a node that was left has no slot to spare below its picks |
| SlotRuns.LeavesNothing | plan_operations.cpp:57-73 | turning to another node leaves no slot of the old one behind that would fit below a pick there |
| SlotRuns.NothingByThen | plan_operations.cpp:38-91 | while places are missing, no instant in front of the next pick has slots for all of them |
| SlotRuns.LastCommitIsLeast | plan_operations.cpp:457-463 | when the last node is complete, no earlier instant has slots for the whole job; slots given by the exception are free before the start; for one node, or without exceptions, the start has slots for the whole job |
| SlotRuns.StuckCannotStart | plan_operations.cpp:381-410 | when nothing can be picked, no instant has slots for the whole job, those that fit below a later one included |
| SlotSelection.TakeSlots | plan_operations.cpp:465-466 | exactly the slots of the completed node are marked as taken |
| SlotSelection.UsePlace | plan_operations.cpp:472-487 | one place of the job on the node is used up; the answer tells whether it was the last one there |
| SlotSelection.ProhibitUsedNode | plan_operations.cpp:472-492 | with the last place gone, exactly the other slots of the node are prohibited |
| SlotRuns.FillingPick | plan_operations.cpp:411-455 | the slots collected for the node being filled are exactly those marked by the current attempt, all on that node |
| SlotRuns.FillingCommit | plan_operations.cpp:457-507 | completed nodes have given disjoint sets of the requested size, each of its own node |
| SlotRuns.HonouredCommit | plan_operations.cpp:472-492 | no node ever gives more than the places the job has on it, and only nodes with places left can still be picked |
| SlotRuns.HonouredEnds | plan_operations.cpp:378-508 | in the end the nodes are the fixed ones, with multiplicity |
| SlotRuns.PickSlot | plan_operations.cpp:381-455 | one turn of the loop: the pick, the switch of nodes, the recording |
| SlotRuns.CompleteNode | plan_operations.cpp:457-507 | completing a node keeps the loop state and decreases its measure |
| SlotRuns.SelectSlots | plan_operations.cpp:305-508 | a run of the loop; usable slots in the order of times, start when the latest is free, every node with slots of its own that are free by then and the latest of them, fixed nodes honoured; no later than any instant with slots for all places, and failure only when there is none; for one node, and without memory exceptions, the least start |
| SlotRuns.RunIsSelected | plan_operations.cpp:305-508 | whatever run the loop makes, what it ends with has all that is stated of the selection |
| SlotFit.OneNodeCanStartIff | plan_operations.cpp:305-508 | one node can start when some node has enough idle slots, those that fit below a later idle one included |
| SlotFit.CanStartIffPlaces | plan_operations.cpp:305-508 | several nodes can start when the places of all nodes add up to them: idle slots divided by CPUs per node, and slots that fit below a later one for a first place or for places of one CPU |
| SlotLoss.RunExactIff | plan_operations.cpp:411-440 | after a complete node the recorded slots are exactly those given if and only if every switch of the run was a safe one |
| SlotLoss.SafeShapeIsSafe | plan_operations.cpp:411-440 | in every run for a request of one node, of one CPU per node, or of two without memory exceptions every switch is safe |
| SlotOrder.RunRenumbered | plan_operations.cpp:38-91 | when no two slots become free at the same instant, the loop does the same for every numbering of the slots |
| NodeTables.CoresInTable | plan_first_free_slot.cpp:78-190 | the table has as many slots of a node as the node has cores, so the test of plan_operations.cpp:279 can be made on the table |
| NodeLoss.ThreeLoses | plan_operations.cpp:414-440 | for two nodes or more with three CPUs or more: two nodes in service, with as many cores as the request needs per node, and a run on their table after which a given slot is not recorded |
| NodeLoss.ExceptionLoses | plan_operations.cpp:414-440 | for two nodes or more with two CPUs: such nodes, with a slot that fits only below a later one |
| NodeLoss.NeverLosesIff | plan_operations.cpp:378-508 | for all nodes the loop records exactly the slots it gives, each once, if and only if the request is for one node, one CPU per node, or two CPUs per node without memory exceptions |
| NodeLoss.RecordedTwice | plan_operations.cpp:414-440 | nodes and a run of a request for two nodes with three CPUs each that records one slot twice |
| MemoryShapes.OtherShapeMisses | plan_operations.cpp:51-73 | for two nodes or more with two CPUs or more: a node whose slots suffice for all places by the exception, and a run on its table that fails |
| MemoryShapes.NeverMissesIff | plan_operations.cpp:378-508 | whatever the nodes are, no instant with slots for all places by the exception is missed, if and only if the request is for one node or for one CPU per node |
| Gaps.AddMemGapToGap | plan_gaps_memory.cpp:158-195 | the CPUs of a gap are added to another one, node by node and in all |
| Gaps.GapDuplicate | plan_gaps.cpp:521-561 | a fresh, unlinked gap with the same record |
| Gaps.CutNewGap | plan_gaps.cpp:594-680 | cutting the new gap at an instant splits what it adds, without loss |
| Gaps.CutOldGap | plan_gaps.cpp:594-680 | cutting a gap of the list at an instant leaves the profile unchanged |
| Gaps.InsertedGap | plan_gaps.cpp:563-593 | a gap put between its neighbours keeps the list sorted and disjoint and adds its CPUs in its interval |
| Gaps.FilledGap | plan_gaps.cpp:640-680 | filling a gap of the same interval adds exactly the new CPUs, in all and per node |
| Gaps.InsertNewGap | plan_gaps.cpp:563-681 | for every instant and node the profile grows by exactly the new gap; the list stays sorted, disjoint, of positive lengths; the recursion ends |
| GapEmission.GapMemoryCreate | plan_gaps_memory.cpp:41-96 | the gap counts, node by node and in all, the job's slots that are free before its end |
| GapEmission.ShowsMore | plan_operations.cpp:606-615 | one more gap extends what the list shows exactly to the end of that gap |
| GapEmission.AreaGrows | plan_operations.cpp:606-615 | usage times duration grows by the idle time of the slots in that interval |
| GapEmission.EmitGaps | plan_operations.cpp:595-619 | before the latest slot is free the gaps show, at every instant and node, how many slots of the job are idle; their area is the sum of the slots' waiting times |
| GapEmission.GapsIthSmallest | plan_gaps.cpp:75-93 | picks an earliest slot not picked before, and marks it |
| GapEmission.GapMemoryCreateLast | plan_gaps_memory.cpp:98-156 | the gap counts, node by node and in all, the slots of nodes that are not down that are free before its end |
| GapEmission.CountedIsFreeAndBlank | plan_gaps_memory.cpp:98-156 | these are the idle slots in service, and the slots without times of nodes that are not down |
| GapEmission.GapCreateNotTheLast | plan_gaps.cpp:95-158 | up to the latest slot or the latest completion the gaps show exactly the idle slots in service, and from the earliest of these on the blank slots of nodes that are not down |
| Limits.WalltimeSuitsToLimit | plan_limits.cpp:203-217 | the first class whose threshold the walltime does not pass |
| Limits.LimitFindAccount | plan_limits.cpp:192-201 | whatever is found is an entry of that account |
| Limits.BinSearchComplete | plan_limits.cpp:171-190 | in ascending order the binary search finds an entry that is there |
| Limits.FindComplete | plan_limits.cpp:171-201 | in ascending order exactly the accounts that are there are found |
| Limits.LimitAddAccount | plan_limits.cpp:130-169 | the account without CPUs is inserted where the shifting loop stops |
| Limits.AddKeepsOrderIff | plan_limits.cpp:145-149 | the order survives an insertion if and only if there was no account or the first one is below the new one |
| Limits.AccountBelowFirstIsLost | plan_limits.cpp:130-201 | any account below the first one is misplaced, not found, and not found after it was added |
| Limits.ThreeBehindFive | plan_limits.cpp:130-201 | with accounts 5 and 3 in this order neither is found |
| Limits.AddLimitToLimit | plan_limits.cpp:219-232 | the entry is charged: its account is found or inserted and gets the CPUs in the class; sums grow by them for everyone and that account, and not otherwise |
| Limits.CloneLimitTimestamp | plan_limits.cpp:280-311 | a new timestamp is opened without changing the accounts of any instant |
| Limits.AddJobToLimits | plan_limits.cpp:313-354 | the accounts of every instant of the job are charged with CPUs per node times nodes and no others; the timeline reaches as far as it did and over the job; timestamps stay ascending and the last entry empty |
| Limits.BookedAmounts | plan_limits.cpp:313-354 | amounts grow by the job's CPUs exactly for its account, its class and its interval |
| Limits.SumLimitsOfLimit | plan_limits.cpp:356-364 | the total of a class over all entries |
| Limits.AdjustMoved | plan_limits.cpp:413-463 | no start up to the end of a blocking entry would be any better |
| Limits.LastNeverBlocks | plan_limits.cpp:413-463 | the last entry never blocks, so the delay is finite |
| Limits.AdjustJobStarttime | plan_limits.cpp:413-463 | the least start not before the original one at which no overlapping entry is exceeded |
| Limits.BlockedIffExceeded | plan_limits.cpp:413-463 | a start is blocked if and only if at some instant of the job inside the timeline the accounts have no room for it |
| Limits.BlockedIffNoRoom | plan_limits.cpp:413-463 | where the search finds the account, a start is blocked if and only if at some instant of the job inside the timeline the total of the class with the job passes its limit, or the recorded account does its own |
| Limits.UnblockedHasRoom | plan_limits.cpp:427-438 | at every instant of an unblocked job the total with the job keeps the limit of its class, or the job has the class to itself |
| Limits.UnblockedHasUserRoom | plan_limits.cpp:441-459 | so does the account with the job its own limit, where the accounts are in an order in which the search finds it |
| Limits.ChargedOrdered | plan_limits.cpp:130-169 | every booking leaves the accounts behind the first one in ascending order, and the first one where it is |
| JobPlanning.InitAvailability | plan_operations.cpp:222-300 | the first marks: a slot may be picked, at once or by the exception, if and only if it is in service, memory and bounds allow it, its node has cores enough, and the job is fixed to no nodes or to this one |
| JobPlanning.UpdateJob | plan_operations.cpp:154-631 | the end of a run of the loop, minimal delay, gaps in front and slot times of one job, tied together; null leaves the table alone and means that no instant has the slots of the job |
| LimitRuns.AgreesNext | plan_operations.cpp:701-718 | booking one more job keeps the timeline equal to the bookings of the jobs so far, instant by instant |
| LimitRuns.EarliestIffLeast | plan_limits.cpp:413-463 | the least start that the timeline allows is the least one that the bookings of the jobs so far allow |
| LimitRuns.RoomForAll | plan_limits.cpp:413-463 | as long as the CPUs of all jobs together keep the limits, no start is blocked |
| LimitRuns.EveryoneHasRoom | plan_operations.cpp:708-718 | in every run planned jobs find room under the total limit of their class, or have the class to themselves |
| LimitRuns.RoomKeepsCap | plan_operations.cpp:708-718 | planned jobs that find room keep, at every instant, the limit or the largest single job |
| LimitRuns.CapIsLimitIff | plan_limits.cpp:427-459 | that cap is the limit if and only if every planned job that counts against it fits it by itself |
| LimitRuns.PlannedWithinLimitIff | plan_limits.cpp:427-459 | planned jobs that find room under a limit, total or of an account, stay within it at every instant if and only if each of them fits it by itself |
| LimitRuns.PlannedWithinTotalIff | plan_limits.cpp:427-438 | in every run planned jobs of a class stay within its total limit if and only if each of them fits it by itself |
| LimitOrder.TooLargeIsPlanned | plan_limits.cpp:413-463 | a job above the limit is planned at once where nothing is recorded |
| LimitOrder.RunningFirstIff | plan_operations.cpp:693-738 | jobs in an order of states keep the limit of all jobs together, in every run in which running jobs have started and planned ones start now or later, if and only if no running job is behind a planned one |
| LimitOrder.LateRunningExceeds | plan_operations.cpp:693-738 | for every other order, jobs of such a run that exceed it |
| LimitOrder.AccountsSorted | plan_limits.cpp:130-169 | where no account comes below the one of the first job at an instant, the accounts are in ascending order |
| LimitOrder.AscendsIff | plan_limits.cpp:441-459 | jobs in an order of states and accounts find room under the limits of their own accounts, in every such run, if and only if no planned job belongs to one of two accounts that come in descending order in front of it |
| LimitOrder.DescendingExceeds | plan_limits.cpp:441-459 | for every other order, jobs of such a run of which one finds no such room |
| PlanSafety.StepGrown | plan_first_free_slot.cpp:192-289 | slot times only grow, slots out of service stay so, planned jobs keep their slots |
| PlanSafety.StepNoDoubleBooking | plan_operations.cpp:704-730 | a newly planned job overlaps no earlier one on any slot |
| PlanSafety.StepConserved | plan_operations.cpp:708-730 | the books stay balanced, for every instant and node, over the planning of a job |
| LimitRuns.TimelineIsSum | plan_limits.cpp:313-354 | the timeline of a run is the plain sum over its jobs for every instant, account and class |
| PlanSafety.QueuedRunStep | plan_operations.cpp:704-730 | planning a queued job keeps the state of a run, and gives the job its best plan |
| PlanSafety.OtherRunStep | plan_operations.cpp:701-734 | recording a running job, or passing over another one, keeps the state of a run |
| PlanSafety.RunEnds | plan_operations.cpp:746-760 | with the gaps behind the last job all CPUs in service are accounted for, jobs by the slots they have recorded, and the blank slots that these gaps show |
| PlanSafety.NoneOversold | plan_operations.cpp:746-760 | when only nodes that are down have slots without times, gaps, recorded slots and running jobs never take more than the CPUs in service |
| PlanSafety.GapsReachIff | plan_operations.cpp:736-760 | the gaps reach as far as a slot is still to become free and a job is still to complete |
| PlanSafety.RunKeepsLimits | plan_operations.cpp:693-738 | what every run keeps of the limits, and what it keeps in a favourable order |
| PlanSafety.WellPlannedNext | plan_operations.cpp:704-730 | with one more job at its least start every planned job is still at its own |
| PlanSafety.RunIsSafe | plan_operations.cpp:693-760 | a completed run is safe, as far as recorded slots are concerned |
| OneCpu.OnePick | plan_operations.cpp:378-508 | a job for one CPU gets the first of the slots it may have |
| NodeLoad.SafeRequestsHold | plan_operations.cpp:693-738 | in a plan of requests for one node, for one CPU per node, or for two without memory exceptions, planned and running jobs never need more cores of a node than are in service |
| NodeLoad.SafeRequestsAreDistinct | plan_operations.cpp:693-738 | no job of such a plan has recorded a slot twice |
| NodeLoad.HeldIsLoad | plan_operations.cpp:693-738 | for such a plan the recorded slots on a node are what the nodes of the jobs say |
| NodeLoad.OtherShapeOverloads | plan_operations.cpp:411-440 | for every other shape: nodes and a plan of two jobs that needs more cores of a node than it has |
| NodeLoad.NeverOverloadsIff | plan_operations.cpp:693-738 | plans of jobs of one shape, and of jobs for one CPU, never overload a node if and only if the shape is one of those three |
| TimelineSlots.TimelineCountsSlots | plan_operations.cpp:701-718 | at every instant of a plan the timeline holds, in all classes, as many CPUs as slots are recorded for planned jobs, and CPUs per node times nodes of the running ones |
| PlanRebuild.InsertGaps | plan_operations.cpp:720-727 | the profile of the cluster grows by that of all gaps of a job |
| PlanRebuild.RecordPlanned | plan_operations.cpp:718-727 | booking a job and inserting its gaps do not disturb each other |
| PlanRebuild.PlanQueuedJob | plan_operations.cpp:704-730 | planning in place keeps the state of the run, extended by the job, and the job's request |
| PlanRebuild.WalkJobs | plan_operations.cpp:693-738 | all jobs are planned or recorded in list order, each planned one at its least start behind those in front of it, with the latest completion; or the first one without slots is dropped and nothing else; a planned job is fixed afterwards to the nodes it was fixed to, or else to those it was given |
| PlanRebuild.RebuildPlan | plan_operations.cpp:634-772 | 0 with a safe plan of all jobs in which every planned job is at its least start, or 2 with one queued job dropped that finds no slots behind those in front of it; requests stay as they were |
| JobOrder.TreatNext | plan_operations.cpp:667-691 | treating one more job moves it to the front, or leaves it |
| JobOrder.Prioritise | plan_operations.cpp:667-691 | exactly the queued jobs that are available, not marked yet, and of the favoured account, of priority 42 or asking for GPUs are marked, and stand reversed in front of all others, which keep their records and their order, although the walk restarts at the moved item |
| JobOrder.PassedInFields | plan_operations.cpp:667-691 | the same for the records of the list from which a cycle plans |
| JobOrder.PassPermutes | plan_operations.cpp:667-691 | no job is lost or doubled by the pass |
| JobOrder.PlaceInRest | plan_list_operations.cpp:488-514 | where the two walks stop, the job has its place in the rest of the list |
| JobOrder.AdjustJobPosition | plan_list_operations.cpp:484-520 | a list sorted by start time and number apart from one job is so sorted afterwards, with the same items |
| SchedUpdate.UpdateSched | plan_operations.cpp:634-772 | from the nodes to a safe plan of all jobs in their new order with every planned job at its least start on the nodes it is fixed to, which overloads no node if all requests are safe; or exactly one queued job dropped that finds no slots |
| SchedUpdate.UpdateUntilPlanned | SchedulerRealm.cpp:764-766 | the cycles follow each other, each aborted one dropping a job that finds no slots behind those in front of it, and the last one gives a plan as UpdateSched does, from the list at the outset if no job was dropped; jobs that are not queued stay, requests are as they were, and so are the nodes of jobs that were fixed at the outset |
| SchedUpdate.PlannedOnLiveNodes | plan_operations.cpp:634-772 | in a safe plan no job starts before now, and all its nodes are nodes of the cluster that are not blank |
| SchedUpdate.PlannedOnIdleCores | plan_operations.cpp:634-772 | every slot given to a planned job is a core on which no job runs, as far as walltimes tell, when it starts |
| SchedUpdate.PlanTakesWhatIsThere | plan_operations.cpp:746-760 | when nodes are blank only because they are down, offline or not usable, a safe plan without repeated slots takes exactly the CPUs in service up to the end of its gaps, and never more, by recorded slots |
| SchedUpdate.NodesTakeWhatIsThere | plan_operations.cpp:746-760 | the same for every node by the nodes of the jobs, for a plan of safe requests |
| SchedUpdate.PlanIsRun | plan_operations.cpp:693-738 | a finished plan is a run in which planned jobs start now or later where the limits first let them |
| SchedUpdate.RequestsThrough | plan_operations.cpp:634-772 | whatever happens to the order, the requests of all jobs stay as they were, apart from the nodes they are fixed to |
| SchedUpdate.ReplannedKeepsFixed | plan_operations.cpp:468-471 | a job fixed to nodes when the cycle begins is fixed to the same ones afterwards |
| SchedUpdate.NamesThrough | SchedulerRealm.cpp:764-766 | a job fixed to nodes at the outset is planned on these in the last cycle, too |
| SchedUpdate.AllNamesHeld | plan_operations.cpp:468-471 | a cycle fixes queued jobs that were not fixed, and leaves the nodes of all others |
| Retry.PassedOnce | plan_operations.cpp:667-691 | a job that the pass has moved to the front is not moved again before it has been planned |
| Retry.PinnedIsLeast | plan_operations.cpp:305-508 | on the same table, the least start on the nodes that a job was given is the least start of its request |
| PinnedRuns.SecondIsPinned | plan_operations.cpp:468-471 | nodes and jobs such that a retry starts its first job at 5 with nothing booked, although a node is free at 0 and the job asked for any |
| PinnedRuns.OtherRetryIsLate | plan_operations.cpp:468-471 | for every other list of fixed and loose jobs in front of the dropped one, a retry that starts one of them late |
| PinnedRuns.RetryIff | SchedulerRealm.cpp:764-766 | after a dropped job the next cycle gives every job the best start of its own request, in all cases, if and only if the jobs planned in front of it were all fixed to nodes or at most one |
| Optimization.JobBackupFixnodes | plan_optimization.cpp:32-71 | the fixed nodes move to the backup and leave empty places |
| Optimization.JobRestoreFixnodes | plan_optimization.cpp:73-91 | a backup comes back and is gone; a job without one stays as it is |
| Optimization.BackupJobOrder | plan_optimization.cpp:117-139 | the array holds the items in order and a null behind them; null for an empty list |
| Optimization.RestoreJobOrder | plan_optimization.cpp:141-185 | from any state of the links: the saved order, well-formed links; jobs with a backup get it back, all others stay as they are; nothing for an empty list |
| Optimization.TryMoveAndRestore | plan_optimization.cpp:188-238 | moving a job, planning before and after, and restoring gives the old order and the job's fixed nodes; other jobs get their backups, stay fixed where they were, or are fixed from now on if they were queued and loose |
| Fairshare.PickInFields | fairshare.cpp:216-250 | a best pick is a job that can run and does not, of the most important queue, with at least the share per usage of all others, compared by cross multiplication; none when there is no such job |
| Fairshare.ExtractFromAll | fairshare.cpp:216-250 | the first of the best jobs, or none when none can run |
| Fairshare.RegenerateJobsByOwner | ServerInfo.cpp:27-62 | every owner once, with exactly that owner's jobs, in order |
| Fairshare.PopIneligible | fairshare.cpp:183-187 | drops ineligible jobs from the front, no others |
| Fairshare.FrontIsBest | fairshare.cpp:183-212 | the first eligible job of an owner is the owner's best one |
| Fairshare.ExtractByOwner | fairshare.cpp:174-214 | a best eligible job of all, found by looking at one job per owner |
| Fairshare.PicksAgree | fairshare.cpp:174-250 | best picks have the same queue priority and ratio, or there is none |
| Fairshare.ExtractBothWays | fairshare.cpp:174-250 | full scan and index agree on jobs whose owners share their shares |
| Fairshare.CompareInFields | fairshare.cpp:302-358 | running jobs come first, then queued ones by share per usage, then the others; ties by number |
| Fairshare.CompareFairshareIsOrder | fairshare.cpp:302-358 | the comparison of the job vector is a strict weak order |
| Fairshare.OrdersIff | fairshare.cpp:302-358 | it orders a vector if and only if that has no null or all its jobs are tied |
| Comparators.MultiSort | sort.cpp:143-156 | compares lexicographically by the keys behind the first entry, up to one without sorting |
| Comparators.CompareIsOrder | sort.cpp:42-141 | every single-key comparison is a strict weak order |
| Comparators.KeysInFields | sort.cpp:42-141 | which amount each key compares, and in which direction; a missing amount comes last, or first in the reverse order |
| Comparators.LexicographicIsOrder | sort.cpp:143-156 | comparing by a sequence of arbitrary strict weak orders, the first one that differs deciding, is a strict weak order |
| Comparators.TiedIffInAll | sort.cpp:143-156 | elements are tied if and only if they are tied in every one of these orders |
| Comparators.MultiSortIsOrder | sort.cpp:143-156 | the comparison by several keys is a strict weak order |
| Comparators.TiedOnEveryKey | sort.cpp:143-156 | jobs are tied if and only if every key in use ties them |
| Clusters.IsPrefix | plan_schedule.cpp:231-239 | accepts if and only if one string begins with the other |
| Clusters.FilterExclude | plan_schedule.cpp:241-259 | keeps exactly the walltime bounds, or exactly the other properties |
| Clusters.Sched.ScheduleAddCluster | plan_schedule.cpp:330-390 | a new, empty cluster with the filtered properties |
| Clusters.Sched.ClusterAddNode | plan_schedule.cpp:568-600 | the node, its name and its CPUs are added to one cluster |
| Clusters.Sched.ClusterCheckFit | plan_schedule.cpp:406-409 | 0 if and only if the filtered properties are those of the cluster |
| Clusters.Sched.PlanFindClusterForNode | plan_schedule.cpp:617-663 | the clusters stay the group-by of all nodes seen; the record of the node is kept, those of other nodes stay, and a known node changes no more than its record |
| Clusters.Sched.PlanUpdateClusters | plan_schedule.cpp:665-671 | the clusters are the group-by of all nodes seen, with the last record of each; an update with known nodes changes no more than their records |
| Clusters.InExactlyOneCluster | plan_schedule.cpp:617-663 | every node is in exactly one cluster, the one of its name and properties |
| Clusters.TogetherIff | plan_schedule.cpp:617-663 | two nodes share a cluster if and only if their cluster names are the same and so are their properties apart from walltime bounds |
| Clusters.PartitionIsDetermined | plan_schedule.cpp:568-671 | the same nodes make the same clusters with the same CPUs, in whatever order and however often they came |
| Clusters.SameIdentsSameCores | plan_schedule.cpp:590-590 | the CPUs of a cluster do not depend on the order of its nodes |
| RunningCounters.Recount | check.cpp:437-507 | counts jobs or cores of a group, of a user, or in all |
| RunningCounters.TallyInFields | check.cpp:437-507 | one more job counts once, or with its cores, under its own group or account and under no other |
| RunningCounters.CountIn | queue_info.cpp:102-122 | raising an entry or creating it by a recount keeps the cache right |
| RunningCounters.LookUp | queue_info.cpp:159-183 | the answer is the recount, and is remembered |
| RunningCounters.QueueInfo.UpdateOnJobRun | queue_info.cpp:94-156 | all five caches stay coherent with the running jobs, keep their entries and gain those of the job |
| RunningCounters.QueueInfo.NumberOfRunningCores | queue_info.cpp:185-194 | the answer is the recount of all cores |
| RunningCounters.QueueInfo.NumberOfRunningCoresForGroup | queue_info.cpp:196-207 | exactly when the answer is right, and exactly when the caches stay coherent |
| RunningCounters.QueueInfo.NumberOfRunningCoresForUser | queue_info.cpp:209-220 | exactly when the answer is right, and exactly when the caches stay coherent |
| RunningCounters.ServerInfo.UpdateOnJobRun | ServerInfo.cpp:64-97 | both caches stay coherent with the running jobs, keep their entries and gain those of the job |
| RunningCounters.ServerInfo.NumberOfRunningJobsForGroup | ServerInfo.cpp:99-110 | the answer is the recount, and is remembered |
| RunningCounters.ServerInfo.NumberOfRunningJobsForUser | ServerInfo.cpp:112-123 | the answer is the recount, and is remembered |
| RunningCounters.Serve | queue_info.cpp:94-194 | in any sequence of calls every answer is the recount at that moment |

## Left out

- SlotRuns.SelectSlots: for several nodes and slots with the memory exception (mark -4) the start may be earlier than every instant that SlotSelection.CanStart has slots at, as slots of other nodes may make up for the exception; how much earlier is not stated.
- JobPlanning.UpdateJob: the flags free_to_run and run_me are not modelled; what update_job puts into run_me is overwritten by update_sched (plan_operations.cpp:729).
- PlanSafety.SafePlan: jobs overlap on no recorded slot, and the balance counts recorded slots; for the shapes of requests that lose slots (NodeLoss.NeverLosesIff) this says nothing about the cores of a node that jobs use (NodeLoad.NeverOverloadsIff).
- Retry.AlwaysBest: one aborted cycle and the finished one after it, with slots that are equally fit for all jobs and in both cycles; it compares starts, not the nodes that jobs get, and says nothing of jobs with slots that depend on the memory exception.
- PlanRebuild.RebuildPlan: the exact balance of CPUs is stated for plans in which no job has recorded a slot twice; the plan does not include the open-ended last gap (gap_create_last), nor the count of queued jobs.
- Gaps.InsertNewGap: records in use only; freeing the new gap, and links from gaps to following jobs, are not modelled.
- Optimization.TryMoveAndRestore: says nothing when a job was dropped in between; the source then restores a freed record.
- Fairshare.ExtractBothWays: needs jobs of one account to share their ginfo, as the index looks at one job per owner; shares are not negative and usage is positive.
- Limits.AddJobToLimits: demands a walltime class below the size of the account arrays, which the source does not check.
- Exclusive jobs: the exclusive branches of update_job, find_earliest_node and first_free_slots_update_exclusive lower slot times, so the safety of a run is not theirs.
- Requests whose usage is not the product of their nodes and CPUs per node, and requests without walltime.
- Memory, scratch, GPUs, walltime bounds of nodes and planned downtime: they enter as the first marks of slots; amounts of memory in slots and gaps are not modelled.
- find_first_gap, job_put_in_gap, limits_is_gap_ok and the gaps considered for a new job.
- list_swap_item and list_get_random_item; a random position is a parameter.
- find_limits_for_cluster and update_limits_values: thresholds and limits of a cluster are parameters.
- Evaluation and acceptance of a new order in plan_optimization; the loop over random moves.
- Machine integers: times, counts and ids are unbounded, and LONG_MAX and narrowing to int have no counterpart; ratios are reals.
- The standard sort is an insertion sort, identifiers compared as strings are represented by their rank, and hash maps are sequences or maps.
- Clusters are values in a field of the schedule; the per-cluster lists of jobs, gaps and limits, and the server pointer, are not part of them.
- num_running_cpus and available_ram of a cluster, which are added up when a node arrives and not renewed with it, have no stated meaning.
- Communication with servers, caches of node states, logging, configuration, nodespecs, allocation failures and wall-clock limits.
