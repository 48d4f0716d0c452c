/**
 What the nodes have to carry: a job runs on the nodes of its record, with its CPUs
 per node for every place there. Booking takes the recorded slots instead, so a plan
 that is safe for the slots need not be safe for the nodes.
 */
module NodeLoad {
  import opened PlanLists
  import opened PlanJobs
  import opened SlotSelection
  import opened SlotRuns
  import opened SlotOrder
  import opened LossyTables
  import opened Gaps
  import opened GapEmission
  import opened SlotBooking
  import opened SlotTable
  import opened Limits
  import opened LimitRuns
  import opened JobPlanning
  import opened PlanSafety
  import opened NodeTables
  import opened NodeLoss
  import opened OneCpu

  // ----- the load of a node

  /** What one planned job puts on a node. */
  ghost function LoadOf(job: Job, t: int, node: int): nat {
    if job.state == Queued && job.reqPpn >= 0 && job.startTime <= t < job.completionTime
    then Base(multiset(job.nodes)[Some(node)], job.reqPpn) else 0
  }

  ghost function Load(js: seq<Job>, t: int, node: int): nat {
    if js == [] then 0 else Load(js[..|js| - 1], t, node) + LoadOf(js[|js| - 1], t, node)
  }

  /** Planned and running jobs together never need more cores than a node has in service. */
  ghost predicate NodesHold(slots0: seq<Slot>, js: seq<Job>) {
    forall t, node :: t >= 0 ==> Load(js, t, node) + BusyAt(slots0, t, OnNode(node)) <= InServiceCount(slots0, OnNode(node))
  }

  // ----- requests for which the record can be trusted

  /** A job that asks for one node, one CPU per node, or two CPUs per node when no slot depends on the memory exception. */
  ghost predicate SafeRequest(job: Job, fit: seq<Fitness>) {
    |job.nodes| == 1 || job.reqPpn == 1 || (job.reqPpn == 2 && FitsAlways(fit))
  }

  ghost predicate SafeRequests(slots0: seq<Slot>, js: seq<Job>, fit: (nat, nat) -> Fitness) {
    forall a :: 0 <= a < |js| && js[a].state == Queued ==> SafeRequest(js[a], FitnessRow(fit, a, |slots0|))
  }

  /** The slots of a choice that are on a node. */
  ghost function OnNodeOf(slots: seq<Slot>, cpus: seq<int>, node: int): set<int>
    requires Indexes(slots, cpus)
  {
    set x | x in cpus && 0 <= x < |slots| && slots[x].node == node
  }

  lemma {:induction false} SizeIsCard(slots: seq<Slot>, cpus: seq<int>, node: int)
    requires Indexes(slots, cpus) && Distinct(cpus)
    ensures SizeOf(Chosen(slots, cpus), OnNode(node)) == |OnNodeOf(slots, cpus, node)|
  {
    if cpus == [] {
      assert OnNodeOf(slots, cpus, node) == {};
    } else {
      var l := |cpus| - 1;
      SizeIsCard(slots, cpus[..l], node);
      assert Chosen(slots, cpus)[..l] == Chosen(slots, cpus[..l]);
      OneMoreOnNode(slots, cpus, node);
    }
  }

  lemma {:induction false} OneMoreOnNode(slots: seq<Slot>, cpus: seq<int>, node: int)
    requires Indexes(slots, cpus) && Distinct(cpus) && cpus != []
    ensures var l := |cpus| - 1;
            |OnNodeOf(slots, cpus, node)| == |OnNodeOf(slots, cpus[..l], node)| + if slots[cpus[l]].node == node then 1 else 0
  {
    var l := |cpus| - 1;
    var x := cpus[l];
    assert x !in cpus[..l];
    assert cpus == cpus[..l] + [x];
    assert OnNodeOf(slots, cpus, node) == OnNodeOf(slots, cpus[..l], node) + if slots[x].node == node then {x} else {};
  }

  /** When the record can be trusted it counts, on every node, what the job puts there. */
  lemma {:induction false} RecordIsLoad(slots: seq<Slot>, init: seq<int>, ppn: nat, names: seq<Option<int>>, sel: Selection, node: int)
    requires |init| == |slots| && Selected(slots, init, ppn, names, sel) && SafeShape(init, ppn, |names|)
    ensures Indexes(slots, sel.cpuIndexes) && Distinct(sel.cpuIndexes)
    ensures SizeOf(Chosen(slots, sel.cpuIndexes), OnNode(node)) == Base(multiset(sel.nodes)[Some(node)], ppn)
  {
    hide Base, LeastFit, Given, AllGiven, SafeShape;
    var takes :| TakenBy(slots, init, ppn, sel, takes);
    GivenCounts(slots, init, ppn, sel.nodes, sel.latest, takes, node);
    SizeIsCard(slots, sel.cpuIndexes, node);
    assert OnNodeOf(slots, sel.cpuIndexes, node) == GivenOn(slots, takes, node) by {
      assert forall x :: x in sel.cpuIndexes <==> x in Elements(sel.cpuIndexes);
    }
  }

  /** What holds of the table behind the first jobs of a plan. */
  ghost predicate Carries(slots0: seq<Slot>, js: seq<Job>, t: int, node: int) {
    var slots := TableAfter(slots0, js);
    && SlotTimes(slots) && (forall x :: 0 <= x < |slots| ==> slots[x].node == slots0[x].node && (slots[x].time == -1 <==> slots0[x].time == -1))
    && Load(js, t, node) + BusyAt(slots0, t, OnNode(node)) <= BusyAt(slots, t, OnNode(node))
  }

  lemma {:induction false} SafeMarks(names: seq<Option<int>>, ppn: nat, slots: seq<Slot>, fit: seq<Fitness>, job: Job)
    requires |fit| == |slots| && job.reqPpn == ppn && |job.nodes| == |names| && SafeRequest(job, fit)
    ensures SafeShape(FirstMarks(names, ppn, slots, fit), ppn, |names|)
  {
    MarksAreInitial(names, ppn, slots, fit);
    hide FirstMarks;
  }

  /** One more job of a safe shape. */
  lemma {:induction false} CarriesNext(slots0: seq<Slot>, names: seq<Option<int>>, js: seq<Job>, job: Job, fit: seq<Fitness>, cfg: Config, t: int, node: int)
    requires Carries(slots0, js, t, node) && job.state == Queued && BestPlan(slots0, names, js, job, fit, cfg) && SafeRequest(job, fit)
    ensures Carries(slots0, js + [job], t, node)
  {
    hide BusyAt, BestPlan, SafeRequest, TableAfter, FreeAll, LoadOf, Load, Freed, SlotTimes;
    BookedIsLoad(slots0, names, js, job, fit, cfg, t, node);
    var table := TableAfter(slots0, js);
    BookedTimes(table, job.cpuIndexes, job.completionTime);
    NextTable(slots0, js, job);
    LoadNext(js, job, t, node);
  }

  lemma {:induction false} LoadNext(js: seq<Job>, job: Job, t: int, node: int)
    ensures Load(js + [job], t, node) == Load(js, t, node) + LoadOf(job, t, node)
  {
    assert (js + [job])[..|js|] == js;
  }

  lemma {:induction false} BookedTimes(table: seq<Slot>, cpus: seq<int>, completion: int)
    requires Indexes(table, cpus) && SlotTimes(table) && completion >= 0 && forall x :: x in cpus ==> 0 <= x < |table| && 0 <= table[x].time
    ensures var after := FreeAll(table, cpus, completion);
            SlotTimes(after) && forall x :: 0 <= x < |after| ==>
              after[x].node == table[x].node && (after[x].time == -1 <==> table[x].time == -1)
  {
    FreeAllIs(table, cpus, completion);
  }

  /** Booking a job of a safe shape makes busy at least what the job puts on a node. */
  lemma {:induction false} BookedIsLoad(slots0: seq<Slot>, names: seq<Option<int>>, js: seq<Job>, job: Job, fit: seq<Fitness>, cfg: Config, t: int, node: int)
    requires SlotTimes(TableAfter(slots0, js)) && job.state == Queued && BestPlan(slots0, names, js, job, fit, cfg) && SafeRequest(job, fit)
    ensures var table := TableAfter(slots0, js);
            && Indexes(slots0, job.cpuIndexes) && Indexes(table, job.cpuIndexes) && job.completionTime >= 0
            && (forall x :: x in job.cpuIndexes ==> 0 <= x < |table| && 0 <= table[x].time)
            && BusyAt(table, t, OnNode(node)) + LoadOf(job, t, node) <= BusyAt(FreeAll(table, job.cpuIndexes, job.completionTime), t, OnNode(node))
  {
    hide BusyAt, BlockedAt, RunsTo, WalltimeClass, FirstMarks, TableAfter, Selected, Base, FreeAll;
    var table := TableAfter(slots0, js);
    var marks := FirstMarks(names, job.reqPpn, table, fit);
    var ready := table[job.cpuIndexes[|job.cpuIndexes| - 1]].time;
    var sel := SelectionOf(job, ready);
    FirstMarksLive(names, job.reqPpn, table, fit);
    SelectedSlots(table, marks, job.reqPpn, names, sel);
    SafeMarks(names, job.reqPpn, table, fit, job);
    RecordIsLoad(table, marks, job.reqPpn, names, sel, node);
    BookingCovers(table, job.cpuIndexes, job.startTime, job.completionTime, ready, t, OnNode(node));
  }

  lemma {:induction false} PlanCarries(slots0: seq<Slot>, was: seq<Job>, js: seq<Job>, fit: (nat, nat) -> Fitness, cfg: Config, t: int, node: int)
    requires SlotTimes(slots0) && WellPlanned(slots0, was, js, fit, cfg) && SafeRequests(slots0, js, fit)
    ensures Carries(slots0, js, t, node)
  {
    hide BestPlan, SafeRequest, Carries;
    if js == [] {
      NothingCarried(slots0, t, node);
    } else {
      var l := |js| - 1;
      var front := js[..l];
      assert js == front + [js[l]];
      assert forall a :: 0 <= a < l ==> front[..a] == js[..a] && front[a] == js[a];
      PlanCarries(slots0, was, front, fit, cfg, t, node);
      if js[l].state == Queued {
        CarriesNext(slots0, was[l].fixedNames, front, js[l], FitnessRow(fit, l, |slots0|), cfg, t, node);
      } else {
        CarriesOther(slots0, front, js[l], t, node);
      }
    }
  }

  lemma {:induction false} NothingCarried(slots0: seq<Slot>, t: int, node: int)
    requires SlotTimes(slots0)
    ensures Carries(slots0, [], t, node)
  {
  }

  lemma {:induction false} CarriesOther(slots0: seq<Slot>, js: seq<Job>, job: Job, t: int, node: int)
    requires Carries(slots0, js, t, node) && job.state != Queued
    ensures Carries(slots0, js + [job], t, node)
  {
    assert (js + [job])[..|js|] == js;
  }

  /** A plan of safe requests never needs more cores of a node than are in service. */
  lemma {:induction false} SafeRequestsHold(slots0: seq<Slot>, was: seq<Job>, js: seq<Job>, fit: (nat, nat) -> Fitness, cfg: Config)
    requires SlotTimes(slots0) && WellPlanned(slots0, was, js, fit, cfg) && SafeRequests(slots0, js, fit)
    ensures NodesHold(slots0, js)
  {
    hide WellPlanned, SafeRequests, Load;
    forall t, node | t >= 0
      ensures Load(js, t, node) + BusyAt(slots0, t, OnNode(node)) <= InServiceCount(slots0, OnNode(node))
    {
      PlanCarries(slots0, was, js, fit, cfg, t, node);
      var slots := TableAfter(slots0, js);
      BusyOrFree(slots, t, OnNode(node));
      InServiceKept(slots0, slots, OnNode(node));
    }
  }

  /** No job of such a plan has recorded a slot twice. */
  lemma {:induction false} SafeRequestsAreDistinct(slots0: seq<Slot>, was: seq<Job>, js: seq<Job>, fit: (nat, nat) -> Fitness, cfg: Config)
    requires WellPlanned(slots0, was, js, fit, cfg) && SafeRequests(slots0, js, fit)
    ensures DistinctSlots(js)
  {
    hide LeastUnblocked, RunsTo, FirstMarks, TableAfter, Selected, FitnessRow, WalltimeClass;
    forall a | 0 <= a < |js| && js[a].state == Queued
      ensures Distinct(js[a].cpuIndexes)
    {
      var names, row := was[a].fixedNames, FitnessRow(fit, a, |slots0|);
      assert BestPlan(slots0, names, js[..a], js[a], row, cfg);
      var table := TableAfter(slots0, js[..a]);
      RecordDistinct(table, names, js[a], row, table[js[a].cpuIndexes[|js[a].cpuIndexes| - 1]].time);
    }
  }

  lemma {:induction false} RecordDistinct(slots: seq<Slot>, names: seq<Option<int>>, job: Job, fit: seq<Fitness>, ready: int)
    requires |fit| == |slots| && job.reqPpn >= 1 && SafeRequest(job, fit)
    requires Selected(slots, FirstMarks(names, job.reqPpn, slots, fit), job.reqPpn, names, SelectionOf(job, ready))
    ensures Distinct(job.cpuIndexes)
  {
    hide FirstMarks, TakenBy, LeastFit, SafeShape;
    SafeMarks(names, job.reqPpn, slots, fit, job);
  }

  /** ... so what the books count for a plan of safe requests is what its jobs put on the nodes. */
  lemma {:induction false} HeldIsLoad(slots0: seq<Slot>, was: seq<Job>, js: seq<Job>, fit: (nat, nat) -> Fitness, cfg: Config, t: int, node: int)
    requires SlotTimes(slots0) && WellPlanned(slots0, was, js, fit, cfg) && SafeRequests(slots0, js, fit)
    ensures Held(slots0, js, t, OnNode(node)) == Load(js, t, node)
  {
    hide BestPlan, SafeRequest, Carries, FitnessRow, HeldBy, LoadOf;
    if js != [] {
      var l := |js| - 1;
      var front := js[..l];
      assert forall a :: 0 <= a < l ==> front[..a] == js[..a] && front[a] == js[a];
      HeldIsLoad(slots0, was, front, fit, cfg, t, node);
      PlanCarries(slots0, was, front, fit, cfg, t, node);
      HeldByIsLoad(slots0, if l < |was| then was[l].fixedNames else [], front, js[l], FitnessRow(fit, l, |slots0|), cfg, t, node);
    }
  }

  lemma {:induction false} HeldByIsLoad(slots0: seq<Slot>, names: seq<Option<int>>, before: seq<Job>, job: Job, fit: seq<Fitness>, cfg: Config, t: int, node: int)
    requires Carries(slots0, before, t, node)
    requires job.state == Queued ==> BestPlan(slots0, names, before, job, fit, cfg) && SafeRequest(job, fit)
    ensures HeldBy(slots0, job, t, OnNode(node)) == LoadOf(job, t, node)
  {
    hide BusyAt, BlockedAt, RunsTo, WalltimeClass, FirstMarks, TableAfter, Selected, Base;
    if job.state == Queued {
      var table := TableAfter(slots0, before);
      var ready := table[job.cpuIndexes[|job.cpuIndexes| - 1]].time;
      SafeMarks(names, job.reqPpn, table, fit, job) by {
        SelectedNodes(table, FirstMarks(names, job.reqPpn, table, fit), job.reqPpn, names, SelectionOf(job, ready));
      }
      RecordIsLoad(table, FirstMarks(names, job.reqPpn, table, fit), job.reqPpn, names, SelectionOf(job, ready), node);
      SizeOfKept(Chosen(table, job.cpuIndexes), Chosen(slots0, job.cpuIndexes), OnNode(node));
    }
  }

  lemma {:induction false} SelectedNodes(slots: seq<Slot>, init: seq<int>, ppn: nat, names: seq<Option<int>>, sel: Selection)
    requires |init| == |slots| && Selected(slots, init, ppn, names, sel)
    ensures |sel.nodes| == |names|
  {
  }

  // ----- an exact condition on requests

  /** A job of a shape, or one for a single CPU. */
  ghost predicate OfShape(job: Job, ppn: nat, numNodes: nat) {
    (job.reqPpn == ppn && |job.nodes| == numNodes) || (job.reqPpn == 1 && |job.nodes| == 1)
  }

  /** A plan of the jobs of one cycle that all have a shape, on slots that may depend on the memory exception or not. */
  ghost predicate PlanOfShape(nodes: seq<Node>, now: int, was: seq<Job>, js: seq<Job>, fit: (nat, nat) -> Fitness, cfg: Config,
                              ppn: nat, numNodes: nat, exceptions: bool) {
    && ValidNodes(nodes) && now >= 0 && WellPlanned(Table(nodes, now), was, js, fit, cfg)
    && (forall a :: 0 <= a < |js| && js[a].state == Queued ==>
          OfShape(js[a], ppn, numNodes) && (exceptions || FitsAlways(FitnessRow(fit, a, |Table(nodes, now)|))))
  }

  /** No plan of such jobs needs more cores of a node than are in service. */
  ghost predicate NeverOverloads(ppn: nat, numNodes: nat, exceptions: bool) {
    forall nodes, now, was, js: seq<Job>, fit: (nat, nat) -> Fitness, cfg: Config ::
      PlanOfShape(nodes, now, was, js, fit, cfg, ppn, numNodes, exceptions) ==> NodesHold(Table(nodes, now), js)
  }

  lemma {:induction false} SafeShapeNeverOverloads(ppn: nat, numNodes: nat, exceptions: bool)
    requires numNodes == 1 || ppn == 1 || (ppn == 2 && !exceptions)
    ensures NeverOverloads(ppn, numNodes, exceptions)
  {
    hide WellPlanned, NodesHold, FitsAlways, Table, FitnessRow;
    forall nodes, now, was, js: seq<Job>, fit: (nat, nat) -> Fitness, cfg: Config |
      PlanOfShape(nodes, now, was, js, fit, cfg, ppn, numNodes, exceptions)
      ensures NodesHold(Table(nodes, now), js)
    {
      TableHasTimes(nodes, now);
      SafeRequestsHold(Table(nodes, now), was, js, fit, cfg);
    }
  }

  lemma {:induction false} TableHasTimes(nodes: seq<Node>, now: int)
    requires ValidNodes(nodes) && now >= 0
    ensures SlotTimes(Table(nodes, now))
  {
    TableTimes(nodes, now);
  }

  /** One slot that is free, behind the jobs planned so far, before all others. */
  ghost predicate FreeFirst(slots: seq<Slot>, p: nat) {
    && p < |slots| && (forall x :: 0 <= x < |slots| ==> slots[x].time >= 0)
    && (forall x :: 0 <= x < |slots| && x != p ==> slots[p].time < slots[x].time)
  }

  /** Everything is in service and fits, so a job for one CPU may have any slot. */
  lemma {:induction false} AllMarksFree(slots: seq<Slot>, names: seq<Option<int>>)
    requires None in names && forall x :: 0 <= x < |slots| ==> slots[x].time >= 0
    ensures forall x :: 0 <= x < |slots| ==> FirstMarks(names, 1, slots, Fits(|slots|))[x] == 0
  {
    forall x | 0 <= x < |slots|
      ensures CoresOf(slots, slots[x].node) >= 1
    {
      CoresAtLeastOne(slots, x);
    }
  }

  lemma {:induction false} CoresAtLeastOne(slots: seq<Slot>, x: nat)
    requires x < |slots|
    ensures CoresOf(slots, slots[x].node) >= 1
  {
    if x < |slots| - 1 {
      CoresAtLeastOne(slots[..|slots| - 1], x);
    }
  }

  /** Behind a job that lost a slot, that slot is the first one that is free. */
  lemma {:induction false} LostIsFirst(slots: seq<Slot>, v: View, lost: nat, completion: int)
    requires LosesSlot(slots, v, lost) && NoTies(slots) && Indexes(slots, v.cpus) && completion > v.start
    requires forall x :: 0 <= x < |slots| ==> slots[x].time >= 0
    ensures FreeFirst(FreeAll(slots, v.cpus, completion), lost)
    ensures FreeAll(slots, v.cpus, completion)[lost] == slots[lost]
  {
    hide AllGiven;
    FreeAllIs(slots, v.cpus, completion);
    forall x | 0 <= x < |slots| && x != lost
      ensures x !in v.cpus ==> slots[lost].time < slots[x].time
    {
      assert slots[x].time != slots[lost].time;
    }
  }

  /** The fitness of the slots: of the first job as given, of all others without restrictions. */
  function FirstRow(fit: seq<Fitness>): (nat, nat) -> Fitness {
    (turn: nat, slot: nat) => if turn == 0 && slot < |fit| then fit[slot] else 0
  }

  lemma {:induction false} RowsOfFirst(fit: seq<Fitness>)
    ensures FitnessRow(FirstRow(fit), 0, |fit|) == fit && FitnessRow(FirstRow(fit), 1, |fit|) == Fits(|fit|)
  {
  }

  /** The job that loses a slot, and the one for a single CPU that comes after it. */
  function Loser(ppn: nat, numNodes: nat, sel: Selection): Job {
    PlannedJob(1, 0, ppn, Unfixed(numNodes), sel, sel.start + 1)
  }

  lemma {:induction false} LoserIsBest(nodes: seq<Node>, fit: seq<Fitness>, ppn: nat, numNodes: nat, lost: nat, run: seq<View>, sel: Selection)
    requires LossyNodes(nodes, fit, ppn, numNodes, lost, run) && EndsWith(run, Unfixed(numNodes), sel) && ppn >= 1 && numNodes >= 1
    ensures sel.start >= 0 && Indexes(Table(nodes, 0), sel.cpuIndexes) && |sel.nodes| == numNodes
    ensures BestPlan(Table(nodes, 0), Unfixed(numNodes), [], Loser(ppn, numNodes, sel), fit, RoomyCfg(sel.start + 1, Base(numNodes, ppn) + 1))
  {
    hide Table, FirstMarks, RunsTo, TakenBy, LeastFit, LosesSlot, AllGiven, LoopRun;
    var slots := Table(nodes, 0);
    var names := Unfixed(numNodes);
    var marks := FirstMarks(names, ppn, slots, fit);
    MarksAreConfined(names, ppn, slots, fit);
    RunIsSelected(slots, marks, ppn, names, run, sel);
    TimesNotNegative(nodes);
    assert TableAfter(slots, []) == slots;
    assert RunsTo(slots, marks, ppn, names, sel) by {
      IsRunsTo(slots, marks, ppn, names, run, sel);
    }
    SelectionIsBest(slots, names, [], 1, 0, ppn, sel, fit, sel.start + 1, Base(numNodes, ppn) + 1);
  }

  lemma {:induction false} IsRunsTo(slots: seq<Slot>, init: seq<int>, ppn: nat, names: seq<Option<int>>, run: seq<View>, sel: Selection)
    requires LoopRun(slots, init, ppn, names, run) && EndsWith(run, names, sel)
    ensures RunsTo(slots, init, ppn, names, sel)
  {
  }

  lemma {:induction false} TimesNotNegative(nodes: seq<Node>)
    requires ValidNodes(nodes) && forall i :: 0 <= i < |nodes| ==> !nodes[i].Blank()
    ensures forall x :: 0 <= x < |Table(nodes, 0)| ==> Table(nodes, 0)[x].time >= 0
  {
    TableTimes(nodes, 0);
  }

  /** The job for one CPU gets the lost slot. */
  lemma {:induction false} FollowerIsBest(nodes: seq<Node>, fit: seq<Fitness>, ppn: nat, numNodes: nat, lost: nat, run: seq<View>, sel: Selection)
    requires LossyNodes(nodes, fit, ppn, numNodes, lost, run) && EndsWith(run, Unfixed(numNodes), sel) && ppn >= 1 && numNodes >= 1
    requires sel.start >= 0 && Indexes(Table(nodes, 0), sel.cpuIndexes) && |sel.nodes| == numNodes && lost < |Table(nodes, 0)|
    ensures BestPlan(Table(nodes, 0), [None], [Loser(ppn, numNodes, sel)], PlannedJob(2, 0, 1, [None], Single(Table(nodes, 0), lost), sel.start + 1),
                     Fits(|fit|), RoomyCfg(sel.start + 1, Base(numNodes, ppn) + 1))
  {
    hide Table, FirstMarks, AllGiven, LoopRun, BestPlan, CoresOf;
    var slots := Table(nodes, 0);
    var a := Loser(ppn, numNodes, sel);
    TimesNotNegative(nodes);
    LostIsFirst(slots, run[|run| - 1], lost, a.completionTime);
    NextTable(slots, [], a);
    assert [] + [a] == [a];
    var table := TableAfter(slots, [a]);
    assert table == FreeAll(slots, sel.cpuIndexes, a.completionTime);
    AllMarksFree(table, [None]);
    assert Single(table, lost) == Single(slots, lost);
    assert BookedCpus([a]) == a.Cpus();
    SingleIsBest(slots, [None], [a], 2, 0, lost, Fits(|fit|), sel.start + 1, Base(numNodes, ppn) + 1);
  }

  /** A job that gets its given slots from node 1 alone needs all cores of the node; with the follower, one more. */
  lemma {:induction false} NodeOneOverloaded(nodes: seq<Node>, fit: seq<Fitness>, ppn: nat, numNodes: nat, lost: nat, run: seq<View>, sel: Selection)
    requires LossyNodes(nodes, fit, ppn, numNodes, lost, run) && EndsWith(run, Unfixed(numNodes), sel) && ppn >= 1 && numNodes >= 1
    requires sel.start >= 0 && lost < |Table(nodes, 0)|
    ensures !NodesHold(Table(nodes, 0), [Loser(ppn, numNodes, sel), PlannedJob(2, 0, 1, [None], Single(Table(nodes, 0), lost), sel.start + 1)])
  {
    hide Table, FirstMarks, AllGiven, LoopRun, CoresOf;
    var slots := Table(nodes, 0);
    var a, b := Loser(ppn, numNodes, sel), PlannedJob(2, 0, 1, [None], Single(slots, lost), sel.start + 1);
    var js := [a, b];
    var t := sel.start;
    AllOfOne(sel.nodes, Some(1));
    AllOfOne(b.nodes, Some(1));
    TimesNotNegative(nodes);
    assert js[..1] == [a] && [a][..0] == [];
    assert Load(js, t, 1) == Load([a], t, 1) + LoadOf(b, t, 1);
    assert Load([a], t, 1) == Load([], t, 1) + LoadOf(a, t, 1);
    assert LoadOf(a, t, 1) == Base(numNodes, ppn) && LoadOf(b, t, 1) == 1;
    InServiceIsCores(nodes, 1);
    assert Load(js, t, 1) + BusyAt(slots, t, OnNode(1)) > InServiceCount(slots, OnNode(1));
  }

  lemma {:induction false} AllOfOne(nodes: seq<Option<int>>, node: Option<int>)
    requires forall k :: 0 <= k < |nodes| ==> nodes[k] == node
    ensures multiset(nodes)[node] == |nodes|
  {
    if nodes != [] {
      AllOfOne(nodes[..|nodes| - 1], node);
      assert nodes == nodes[..|nodes| - 1] + [node];
    }
  }

  lemma {:induction false} InServiceIsCores(nodes: seq<Node>, i: nat)
    requires ValidNodes(nodes) && i < |nodes| && forall k :: 0 <= k < |nodes| ==> !nodes[k].Blank()
    ensures InServiceCount(Table(nodes, 0), OnNode(i)) == nodes[i].cores
  {
    TimesNotNegative(nodes);
    CoresInTable(nodes, 0, i);
    CountIsCores(Table(nodes, 0), i);
  }

  lemma {:induction false} CountIsCores(slots: seq<Slot>, i: int)
    requires forall x :: 0 <= x < |slots| ==> slots[x].time >= 0
    ensures InServiceCount(slots, OnNode(i)) == CoresOf(slots, i)
  {
    if slots != [] {
      CountIsCores(slots[..|slots| - 1], i);
    }
  }

  /** For every other shape a plan of two jobs needs more cores of a node than it has. */
  lemma {:induction false} OtherShapeOverloads(ppn: nat, numNodes: nat, exceptions: bool)
    returns (nodes: seq<Node>, was: seq<Job>, js: seq<Job>, fit: (nat, nat) -> Fitness, cfg: Config)
    requires ppn >= 2 && numNodes >= 2 && (ppn == 2 ==> exceptions)
    ensures PlanOfShape(nodes, 0, was, js, fit, cfg, ppn, numNodes, exceptions) && !NodesHold(Table(nodes, 0), js)
  {
    var row, lost, run;
    nodes, row, lost, run := OtherShapeLoses(ppn, numNodes, exceptions);
    var end := run[|run| - 1];
    var sel := Selection(end.start, end.nodes, end.latest, end.cpus);
    hide Table, LoopRun, LosesSlot, NoTies, FirstMarks, BestPlan, NodesHold, FitnessRow, RoomyCfg;
    assert EndsWith(run, Unfixed(numNodes), sel);
    LoserIsBest(nodes, row, ppn, numNodes, lost, run, sel);
    LostWithin(nodes, row, ppn, numNodes, lost, run);
    FollowerIsBest(nodes, row, ppn, numNodes, lost, run, sel);
    NodeOneOverloaded(nodes, row, ppn, numNodes, lost, run, sel);
    var a, b := Loser(ppn, numNodes, sel), PlannedJob(2, 0, 1, [None], Single(Table(nodes, 0), lost), sel.start + 1);
    js := [a, b];
    was := [a.(fixedNames := Unfixed(numNodes)), b.(fixedNames := [None])];
    fit := FirstRow(row);
    cfg := RoomyCfg(sel.start + 1, Base(numNodes, ppn) + 1);
    RowsOfFirst(row);
    TwoArePlanned(Table(nodes, 0), was, a, b, fit, cfg);
    TwoOfShape(a, b, fit, row, ppn, numNodes, exceptions);
  }

  lemma {:induction false} TwoArePlanned(slots0: seq<Slot>, was: seq<Job>, a: Job, b: Job, fit: (nat, nat) -> Fitness, cfg: Config)
    requires |was| == 2 && BestPlan(slots0, was[0].fixedNames, [], a, FitnessRow(fit, 0, |slots0|), cfg)
    requires BestPlan(slots0, was[1].fixedNames, [a], b, FitnessRow(fit, 1, |slots0|), cfg)
    ensures WellPlanned(slots0, was, [a, b], fit, cfg)
  {
    hide BestPlan, FitnessRow;
    var js := [a, b];
    assert js[..0] == [] && js[..1] == [a];
  }

  lemma {:induction false} TwoOfShape(a: Job, b: Job, fit: (nat, nat) -> Fitness, row: seq<Fitness>, ppn: nat, numNodes: nat, exceptions: bool)
    requires a.reqPpn == ppn && |a.nodes| == numNodes && b.reqPpn == 1 && |b.nodes| == 1 && (exceptions || FitsAlways(row))
    requires FitnessRow(fit, 0, |row|) == row && FitnessRow(fit, 1, |row|) == Fits(|row|)
    ensures var js := [a, b];
            forall i :: 0 <= i < 2 ==> OfShape(js[i], ppn, numNodes) && (exceptions || FitsAlways(FitnessRow(fit, i, |row|)))
  {
    hide FitnessRow;
  }

  lemma {:induction false} LostWithin(nodes: seq<Node>, fit: seq<Fitness>, ppn: nat, numNodes: nat, lost: nat, run: seq<View>)
    requires LossyNodes(nodes, fit, ppn, numNodes, lost, run)
    ensures lost < |Table(nodes, 0)| == |fit|
  {
  }

  /**
   Jobs of a shape, and jobs for one CPU, never need more cores of a node than are in
   service, in any plan, if and only if they ask for one node, for one CPU per node,
   or for two of them without exceptions for memory.
   */
  lemma {:induction false} NeverOverloadsIff(ppn: nat, numNodes: nat, exceptions: bool)
    requires ppn >= 1 && numNodes >= 1
    ensures NeverOverloads(ppn, numNodes, exceptions) <==> numNodes == 1 || ppn == 1 || (ppn == 2 && !exceptions)
  {
    if numNodes == 1 || ppn == 1 || (ppn == 2 && !exceptions) {
      SafeShapeNeverOverloads(ppn, numNodes, exceptions);
    } else {
      hide PlanOfShape, NodesHold;
      var nodes, was, js, fit, cfg := OtherShapeOverloads(ppn, numNodes, exceptions);
    }
  }
}
