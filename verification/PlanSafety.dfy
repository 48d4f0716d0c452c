/**
 What a whole run of the plan rebuild keeps (update_sched in plan_operations.cpp):
 no slot is booked twice, no instant is oversold, and planned jobs stay within
 the limits. All of it is stated on the records of the jobs, in list order.
 */
module PlanSafety {
  import opened PlanLists
  import opened PlanJobs
  import opened SlotSelection
  import opened SlotRuns
  import opened Gaps
  import opened GapEmission
  import opened SlotBooking
  import opened Limits
  import opened LimitRuns
  import opened LimitOrder
  import opened JobPlanning

  // ----- the slot table

  /** The table keeps its nodes and what is out of service, and times only grow. */
  ghost predicate Grown(slots0: seq<Slot>, slots: seq<Slot>) {
    && |slots| == |slots0|
    && forall x :: 0 <= x < |slots0| ==>
         && slots[x].node == slots0[x].node
         && -1 <= slots0[x].time <= slots[x].time
         && (slots[x].time == -1 <==> slots0[x].time == -1)
  }

  // ----- no double booking

  /** Jobs whose recorded slots are always those that their nodes have given. */
  predicate KeepsSlots(job: Job) {
    job.reqNumNodes == 1 || job.reqPpn == 1
  }

  /** A part of a job: free slots of one node. */
  ghost predicate FreePart(slots: seq<Slot>, job: Job, node: Option<int>, take: set<int>) {
    && |take| == job.reqPpn && node.Some?
    && forall x :: x in take ==> 0 <= x < |slots| && slots[x].node == node.value && 0 <= slots[x].time <= job.startTime
  }

  /** Every node of a job has given slots of its own, all of them free when it starts. */
  ghost predicate GivenSlots(slots: seq<Slot>, job: Job, takes: seq<set<int>>) {
    && |takes| == |job.nodes| == job.reqNumNodes
    && (forall k :: 0 <= k < |takes| ==> FreePart(slots, job, job.nodes[k], takes[k]))
    && (forall k, l :: 0 <= k < l < |takes| ==> takes[k] !! takes[l])
    && (KeepsSlots(job) ==> Elements(job.cpuIndexes) == AllGiven(takes))
  }

  /**
   A job has as many slots as it uses. For several nodes with several CPUs each the
   slots recorded may be others than those given, and may repeat.
   */
  ghost predicate OwnSlots(slots: seq<Slot>, job: Job) {
    && job.reqPpn >= 1 && job.reqNumNodes >= 1
    && Indexes(slots, job.cpuIndexes) && |job.cpuIndexes| == job.usage > 0
    && job.completionTime == job.startTime + job.estimatedProcessing > job.startTime
    && (KeepsSlots(job) ==> Distinct(job.cpuIndexes))
    && exists takes :: GivenSlots(slots, job, takes)
  }

  /** A job's slots are free when it starts, and those recorded are its own until it completes. */
  ghost predicate HoldsSlots(slots0: seq<Slot>, slots: seq<Slot>, job: Job) {
    && |slots| == |slots0| && OwnSlots(slots0, job)
    && forall x :: x in job.cpuIndexes ==>
         0 <= slots0[x].time <= job.startTime <= job.completionTime <= slots[x].time
  }

  /** Two jobs that share a slot do not overlap in time: the one planned first completes first. */
  ghost predicate NoOverlap(a: Job, b: Job) {
    (exists x :: x in a.cpuIndexes && x in b.cpuIndexes) ==> a.completionTime <= b.startTime
  }

  ghost predicate NoDoubleBooking(js: seq<Job>) {
    forall a, b :: 0 <= a < b < |js| && js[a].state == Queued && js[b].state == Queued ==> NoOverlap(js[a], js[b])
  }

  ghost predicate AllHold(slots0: seq<Slot>, slots: seq<Slot>, js: seq<Job>) {
    forall a :: 0 <= a < |js| && js[a].state == Queued ==> HoldsSlots(slots0, slots, js[a])
  }

  // ----- conservation of CPUs

  /** What one planned job holds at an instant, in all or on one node. */
  ghost function HeldBy(slots0: seq<Slot>, job: Job, t: int, m: Measure): nat {
    if job.state == Queued && Indexes(slots0, job.cpuIndexes) && job.startTime <= t < job.completionTime
    then SizeOf(Chosen(slots0, job.cpuIndexes), m) else 0
  }

  ghost function Held(slots0: seq<Slot>, js: seq<Job>, t: int, m: Measure): nat {
    if js == [] then 0 else Held(slots0, js[..|js| - 1], t, m) + HeldBy(slots0, js[|js| - 1], t, m)
  }

  /** The slot table after the jobs are planned: each has its slots until it completes. */
  ghost function TableAfter(slots0: seq<Slot>, js: seq<Job>): (r: seq<Slot>)
    ensures |r| == |slots0|
  {
    if js == [] then slots0
    else
      var before := TableAfter(slots0, js[..|js| - 1]);
      var j := js[|js| - 1];
      if j.state == Queued && Indexes(slots0, j.cpuIndexes) then FreeAll(before, j.cpuIndexes, j.completionTime) else before
  }

  lemma {:induction false} NextTable(slots0: seq<Slot>, js: seq<Job>, job: Job)
    ensures TableAfter(slots0, js + [job]) ==
            if job.state == Queued && Indexes(slots0, job.cpuIndexes) then FreeAll(TableAfter(slots0, js), job.cpuIndexes, job.completionTime)
            else TableAfter(slots0, js)
  {
    assert (js + [job])[..|js|] == js;
  }

  /** What waits for one planned job at an instant: its slots, all free, while limits delay its start. */
  ghost function WaitingFor(slots: seq<Slot>, job: Job, t: int, m: Measure): nat {
    if && job.state == Queued && Indexes(slots, job.cpuIndexes) && job.cpuIndexes != []
       && slots[job.cpuIndexes[|job.cpuIndexes| - 1]].time <= t < job.startTime
    then SizeOf(Chosen(slots, job.cpuIndexes), m) else 0
  }

  ghost function Waiting(slots0: seq<Slot>, js: seq<Job>, t: int, m: Measure): nat {
    if js == [] then 0
    else
      Waiting(slots0, js[..|js| - 1], t, m) + WaitingFor(TableAfter(slots0, js[..|js| - 1]), js[|js| - 1], t, m)
  }

  /** Gaps, planned jobs, slots that wait and running jobs together take exactly what the table counts as busy. */
  ghost predicate Conserved(slots0: seq<Slot>, slots: seq<Slot>, js: seq<Job>, gs: seq<Gap>) {
    forall t, m :: t >= 0 ==>
      Profile(gs, t, m) + Held(slots0, js, t, m) + Waiting(slots0, js, t, m) + BusyAt(slots0, t, m) == BusyAt(slots, t, m)
  }

  /** No planned job has recorded a slot twice. */
  ghost predicate DistinctSlots(js: seq<Job>) {
    forall a :: 0 <= a < |js| && js[a].state == Queued ==> Distinct(js[a].cpuIndexes)
  }

  // ----- the place of a job in its run

  /**
   A planned job has the selection that the table behind the jobs in front of it
   yields, in particular a start no later than any instant with slots for all its
   places, and begins at the least instant from then on that these jobs allow.
   */
  ghost predicate BestPlan(slots0: seq<Slot>, names: seq<Option<int>>, before: seq<Job>, job: Job, fit: seq<Fitness>, cfg: Config)
  {
    var table := TableAfter(slots0, before);
    && |fit| == |slots0| && cfg.Valid() && job.reqPpn >= 1 && Indexes(table, job.cpuIndexes) && job.cpuIndexes != []
    && job.startTime < job.completionTime
    && RequestOf(job, cfg).cls < |cfg.total|
    && var ready := table[job.cpuIndexes[|job.cpuIndexes| - 1]].time;
       && Selected(table, FirstMarks(names, job.reqPpn, table, fit), job.reqPpn, names, SelectionOf(job, ready))
       && RunsTo(table, FirstMarks(names, job.reqPpn, table, fit), job.reqPpn, names, SelectionOf(job, ready))
       && LeastUnblocked(before, ready, job.startTime, RequestOf(job, cfg), cfg)
  }

  function FitnessRow(fit: (nat, nat) -> Fitness, turn: nat, n: nat): (row: seq<Fitness>)
    ensures |row| == n
  {
    seq(n, i requires 0 <= i < n => fit(turn, i))
  }

  /** Every planned job has its best plan, given the jobs in front of it and the nodes it was fixed to. */
  ghost predicate WellPlanned(slots0: seq<Slot>, was: seq<Job>, js: seq<Job>, fit: (nat, nat) -> Fitness, cfg: Config) {
    |js| <= |was| &&
    forall a :: 0 <= a < |js| && js[a].state == Queued ==>
      BestPlan(slots0, was[a].fixedNames, js[..a], js[a], FitnessRow(fit, a, |slots0|), cfg)
  }

  lemma {:induction false} WellPlannedNext(slots0: seq<Slot>, was: seq<Job>, js: seq<Job>, job: Job, fit: (nat, nat) -> Fitness, cfg: Config)
    requires WellPlanned(slots0, was, js, fit, cfg) && |js| < |was|
    requires job.state == Queued ==>
               BestPlan(slots0, was[|js|].fixedNames, js, job, FitnessRow(fit, |js|, |slots0|), cfg)
    ensures WellPlanned(slots0, was, js + [job], fit, cfg)
  {
    var all := js + [job];
    assert all[..|js|] == js;
    assert forall a :: 0 <= a < |js| ==> all[a] == js[a] && all[..a] == js[..a];
  }

  /** Everything that holds between two jobs of a run. */
  ghost predicate RunState(slots0: seq<Slot>, slots: seq<Slot>, js: seq<Job>, gs: seq<Gap>, vs: seq<Limit>, cfg: Config) {
    && cfg.Valid()
    && Grown(slots0, slots) && SlotTimes(slots) && slots == TableAfter(slots0, js)
    && AllHold(slots0, slots, js) && NoDoubleBooking(js)
    && GapSequence(gs) && (DistinctSlots(js) ==> Conserved(slots0, slots, js, gs))
    && Timeline(vs) && Agrees(js, vs, cfg) && LimitRun(js, cfg)
  }

  /** What planning a job tells about its slots. */
  ghost predicate Placed(slots: seq<Slot>, slots': seq<Slot>, job: Job, latest: int) {
    && OwnSlots(slots, job) && Freed(slots, slots', job.cpuIndexes, job.completionTime)
    && (forall a :: 0 <= a < |job.cpuIndexes| ==> 0 <= slots[job.cpuIndexes[a]].time <= latest)
    && latest == slots[job.cpuIndexes[|job.cpuIndexes| - 1]].time
    && latest <= job.startTime <= job.completionTime
  }

  lemma {:induction false} PlannedIsPlaced(slots: seq<Slot>, slots': seq<Slot>, was: Job, job: Job, gs: seq<Gap>,
                                           vs: seq<Limit>, cfg: Config, marks: seq<int>) returns (latest: int)
    requires |marks| == |slots| && cfg.Valid() && Plannable(was, cfg) && SlotTimes(slots)
    requires Planned(slots, slots', was, job, gs, vs, cfg, marks)
    requires forall i :: 0 <= i < |slots| ==> IsFresh(marks[i]) ==> slots[i].time != -1
    ensures Placed(slots, slots', job, latest)
    ensures Emitted(gs, Chosen(slots, job.cpuIndexes), latest)
    ensures EarliestStart(vs, latest, job.startTime, RequestOf(was, cfg), cfg)
    ensures Selected(slots, marks, job.reqPpn, was.fixedNames, SelectionOf(job, latest))
    ensures RunsTo(slots, marks, job.reqPpn, was.fixedNames, SelectionOf(job, latest))
    ensures latest == slots[job.cpuIndexes[|job.cpuIndexes| - 1]].time
  {
    hide Emitted, Freed, Timeline, Blocked, TakenBy, LeastFit, RunsTo, GivenSlots, Given;
    latest := slots[job.cpuIndexes[was.usage - 1]].time;
    var sel := SelectionOf(job, latest);
    SelectedSlots(slots, marks, was.reqPpn, was.fixedNames, sel);
    var takes :| TakenBy(slots, marks, was.reqPpn, sel, takes);
    TakenAreGiven(slots, marks, job, sel, takes);
  }

  lemma {:induction false} TakenAreGiven(slots: seq<Slot>, marks: seq<int>, job: Job, sel: Selection, takes: seq<set<int>>)
    requires |marks| == |slots| && SlotTimes(slots) && job.reqPpn >= 1 && TakenBy(slots, marks, job.reqPpn, sel, takes)
    requires sel.nodes == job.nodes && |job.nodes| == job.reqNumNodes && sel.cpuIndexes == job.cpuIndexes && sel.start <= job.startTime
    requires forall i :: 0 <= i < |slots| ==> IsFresh(marks[i]) ==> slots[i].time != -1
    ensures GivenSlots(slots, job, takes)
  {
    hide AllGiven;
    forall k | 0 <= k < |takes|
      ensures FreePart(slots, job, job.nodes[k], takes[k])
    {
      assert GivenBy(slots, marks, job.nodes[k], takes[k]);
      forall x | x in takes[k]
        ensures x in AllGiven(takes)
      {
        GivenIn(takes, k, x);
      }
    }
  }

  /** What was given in the table is free at the outset, too. */
  lemma {:induction false} OwnAtOutset(slots0: seq<Slot>, slots: seq<Slot>, job: Job)
    requires Grown(slots0, slots) && OwnSlots(slots, job)
    ensures OwnSlots(slots0, job)
  {
    hide AllGiven;
    var takes :| GivenSlots(slots, job, takes);
    forall k | 0 <= k < |takes|
      ensures FreePart(slots0, job, job.nodes[k], takes[k])
    {
      assert FreePart(slots, job, job.nodes[k], takes[k]);
    }
    assert GivenSlots(slots0, job, takes);
  }

  lemma {:induction false} StepGrown(slots0: seq<Slot>, slots: seq<Slot>, slots': seq<Slot>, js: seq<Job>, job: Job, latest: int)
    requires Grown(slots0, slots) && AllHold(slots0, slots, js) && SlotTimes(slots)
    requires Placed(slots, slots', job, latest) && job.state == Queued
    ensures Grown(slots0, slots') && SlotTimes(slots') && AllHold(slots0, slots', js + [job])
  {
    hide GivenSlots;
    OwnIndexes(slots, job);
    OwnAtOutset(slots0, slots, job);
    forall x | 0 <= x < |slots|
      ensures slots[x].time <= slots'[x].time && (slots'[x].time == -1 <==> slots[x].time == -1)
      ensures slots'[x].node == slots[x].node && slots'[x].time >= -1
      ensures x in job.cpuIndexes ==> 0 <= slots0[x].time <= job.startTime && slots'[x].time == job.completionTime
    {
    }
    forall a | 0 <= a < |js| && js[a].state == Queued
      ensures HoldsSlots(slots0, slots', js[a])
    {
      assert HoldsSlots(slots0, slots, js[a]);
    }
    assert HoldsSlots(slots0, slots', job);
  }

  lemma {:induction false} OwnIndexes(slots: seq<Slot>, job: Job)
    requires OwnSlots(slots, job)
    ensures Indexes(slots, job.cpuIndexes) && job.completionTime > job.startTime
  {
  }

  lemma {:induction false} StepTable(slots0: seq<Slot>, slots: seq<Slot>, slots': seq<Slot>, js: seq<Job>, job: Job, latest: int)
    requires slots == TableAfter(slots0, js) && Placed(slots, slots', job, latest) && job.state == Queued
    ensures slots' == TableAfter(slots0, js + [job])
  {
    assert (js + [job])[..|js|] == js;
    FreedIsFreeAll(slots, slots', job.cpuIndexes, job.completionTime);
  }

  lemma {:induction false} StepNoDoubleBooking(slots0: seq<Slot>, slots: seq<Slot>, slots': seq<Slot>, js: seq<Job>, job: Job, latest: int)
    requires AllHold(slots0, slots, js) && NoDoubleBooking(js) && Placed(slots, slots', job, latest)
    ensures NoDoubleBooking(js + [job])
  {
    forall a | 0 <= a < |js| && js[a].state == Queued
      ensures NoOverlap(js[a], job)
    {
      assert HoldsSlots(slots0, slots, js[a]);
    }
  }

  lemma {:induction false} SizeOfKept(sel: seq<Slot>, sel': seq<Slot>, m: Measure)
    requires |sel'| == |sel| && forall i :: 0 <= i < |sel| ==> sel'[i].node == sel[i].node
    ensures SizeOf(sel', m) == SizeOf(sel, m)
  {
    if sel != [] {
      SizeOfKept(sel[..|sel| - 1], sel'[..|sel| - 1], m);
    }
  }

  lemma {:induction false} StepConserved(slots0: seq<Slot>, slots: seq<Slot>, slots': seq<Slot>, js: seq<Job>, job: Job,
                                         latest: int, gs: seq<Gap>, gs': seq<Gap>, news: seq<Gap>)
    requires Grown(slots0, slots) && slots == TableAfter(slots0, js) && Conserved(slots0, slots, js, gs)
    requires Placed(slots, slots', job, latest) && Distinct(job.cpuIndexes) && job.state == Queued
    requires Emitted(news, Chosen(slots, job.cpuIndexes), latest) && AddsAll(gs, gs', news)
    ensures Conserved(slots0, slots', js + [job], gs')
  {
    var sel, sel0 := Chosen(slots, job.cpuIndexes), Chosen(slots0, job.cpuIndexes);
    assert (js + [job])[..|js|] == js;
    FreedIsFreeAll(slots, slots', job.cpuIndexes, job.completionTime);
    forall t, m | t >= 0
      ensures Profile(gs', t, m) + Held(slots0, js + [job], t, m) + Waiting(slots0, js + [job], t, m) + BusyAt(slots0, t, m)
              == BusyAt(slots', t, m)
    {
      BookingCovers(slots, job.cpuIndexes, job.startTime, job.completionTime, latest, t, m);
      SizeOfKept(sel, sel0, m);
      assert Profile(news, t, m) == if t < latest then FreeBy(sel, t, m) else 0;
      assert Profile(gs', t, m) == Profile(gs, t, m) + Profile(news, t, m);
    }
  }

  lemma {:induction false} DistinctPrefix(js: seq<Job>, job: Job)
    requires DistinctSlots(js + [job])
    ensures DistinctSlots(js) && (job.state == Queued ==> Distinct(job.cpuIndexes))
  {
    var all := js + [job];
    assert forall a :: 0 <= a < |js| ==> all[a] == js[a];
    assert all[|js|] == job;
  }

  /** A planned job is admitted, and begins as early as the jobs in front of it allow. */
  lemma {:induction false} StepAdmits(js: seq<Job>, was: Job, job: Job, vs: seq<Limit>, cfg: Config, s0: int)
    requires cfg.Valid() && Timeline(vs) && Agrees(js, vs, cfg) && LimitRun(js, cfg)
    requires job.state == Queued && Plannable(was, cfg) && job.Cpus() > 0
    requires job.estimatedProcessing == was.estimatedProcessing && RequestOf(job, cfg) == RequestOf(was, cfg)
    requires job.completionTime == job.startTime + job.estimatedProcessing
    requires EarliestStart(vs, s0, job.startTime, RequestOf(was, cfg), cfg)
    ensures Admitted(js, job, cfg) && LimitRun(js + [job], cfg)
    ensures RequestOf(job, cfg).cls < |cfg.total| && LeastUnblocked(js, s0, job.startTime, RequestOf(job, cfg), cfg)
  {
    hide Timeline, Agrees, LimitRun, EarliestStart, WalltimeClass, BlockedAt;
    RunIsSettled(js, vs, cfg);
    EarliestIffLeast(js, vs, s0, job.startTime, RequestOf(was, cfg), cfg);
    LimitRunNext(js, job, cfg);
  }

  /** A run survives the planning of a job, and the job has its best plan. */
  lemma {:induction false} QueuedRunStep(slots0: seq<Slot>, slots: seq<Slot>, slots': seq<Slot>, js: seq<Job>, was: Job, job: Job,
                                         news: seq<Gap>, gs: seq<Gap>, gs': seq<Gap>, vs: seq<Limit>, vs': seq<Limit>,
                                         cfg: Config, fit: seq<Fitness>)
    requires RunState(slots0, slots, js, gs, vs, cfg) && |fit| == |slots| == |slots0|
    requires was.state == Queued && Plannable(was, cfg)
    requires Planned(slots, slots', was, job, news, vs, cfg, FirstMarks(was.fixedNames, was.reqPpn, slots, fit))
    requires GapSequence(gs') && AddsAll(gs, gs', news) && Timeline(vs')
    requires Books(vs, vs', job.startTime, job.completionTime, job.accountId, ClassOf(job, cfg), job.Cpus())
    ensures RunState(slots0, slots', js + [job], gs', vs', cfg)
    ensures BestPlan(slots0, was.fixedNames, js, job, fit, cfg)
  {
    hide Grown, SlotTimes, AllHold, NoDoubleBooking, GapSequence, Conserved, Timeline, Agrees, LimitRun, Admitted, LeastUnblocked,
         Planned, Placed, Emitted, EarliestStart, Books, AddsAll, Selected, RunsTo, Freed, WalltimeClass, DistinctSlots, FirstMarks, Base;
    var marks := FirstMarks(was.fixedNames, was.reqPpn, slots, fit);
    FirstMarksLive(was.fixedNames, was.reqPpn, slots, fit);
    var latest := PlannedIsPlaced(slots, slots', was, job, news, vs, cfg, marks);
    PlannedFields(slots, slots', was, job, news, vs, cfg, marks);
    StepTable(slots0, slots, slots', js, job, latest);
    StepGrown(slots0, slots, slots', js, job, latest);
    StepNoDoubleBooking(slots0, slots, slots', js, job, latest);
    if DistinctSlots(js + [job]) {
      DistinctPrefix(js, job);
      StepConserved(slots0, slots, slots', js, job, latest, gs, gs', news);
    }
    StepAdmits(js, was, job, vs, cfg, latest);
    AgreesNext(js, job, vs, vs', cfg);
  }

  lemma {:induction false} FirstMarksLive(names: seq<Option<int>>, ppn: int, slots: seq<Slot>, fit: seq<Fitness>)
    requires |fit| == |slots|
    ensures forall i :: 0 <= i < |slots| ==> IsFresh(FirstMarks(names, ppn, slots, fit)[i]) ==> slots[i].time != -1
  {
  }

  lemma {:induction false} PlannedFields(slots: seq<Slot>, slots': seq<Slot>, was: Job, job: Job, gs: seq<Gap>,
                                         vs: seq<Limit>, cfg: Config, marks: seq<int>)
    requires |marks| == |slots| && cfg.Valid() && Plannable(was, cfg)
    requires Planned(slots, slots', was, job, gs, vs, cfg, marks)
    ensures job.state == was.state && job.reqNumNodes == was.reqNumNodes && job.Cpus() == was.Cpus() > 0
    ensures job.estimatedProcessing == was.estimatedProcessing && job.accountId == was.accountId && job.reqPpn == was.reqPpn
    ensures Indexes(slots, job.cpuIndexes) && job.cpuIndexes != []
    ensures job.completionTime == job.startTime + job.estimatedProcessing > job.startTime
    ensures RequestOf(job, cfg) == RequestOf(was, cfg)
  {
  }

  /** A job that is not planned, because it runs or waits for something else. */
  lemma {:induction false} OtherRunStep(slots0: seq<Slot>, slots: seq<Slot>, js: seq<Job>, job: Job, gs: seq<Gap>,
                                        vs: seq<Limit>, vs': seq<Limit>, cfg: Config)
    requires RunState(slots0, slots, js, gs, vs, cfg) && job.state != Queued && job.Cpus() > 0
    requires job.state == Running ==> job.startTime < job.completionTime && ClassOf(job, cfg) < NUM_LIMITS
    requires if job.state == Running then
               Timeline(vs') && Books(vs, vs', job.startTime, job.completionTime, job.accountId, ClassOf(job, cfg), job.Cpus())
             else vs' == vs
    ensures RunState(slots0, slots, js + [job], gs, vs', cfg)
  {
    hide Grown, SlotTimes, GapSequence, Timeline, Agrees, LimitRun, Conserved, Books, WalltimeClass, DistinctSlots;
    OtherBooksNothing(slots0, slots, js, job, gs);
    LimitRunNext(js, job, cfg);
    if DistinctSlots(js + [job]) {
      DistinctPrefix(js, job);
    }
    if job.state == Running {
      AgreesNext(js, job, vs, vs', cfg);
    } else {
      AgreesWithout(js, job, vs, cfg);
    }
  }

  lemma {:induction false} OtherBooksNothing(slots0: seq<Slot>, slots: seq<Slot>, js: seq<Job>, job: Job, gs: seq<Gap>)
    requires AllHold(slots0, slots, js) && NoDoubleBooking(js) && job.state != Queued
    ensures AllHold(slots0, slots, js + [job]) && NoDoubleBooking(js + [job])
    ensures TableAfter(slots0, js + [job]) == TableAfter(slots0, js)
    ensures Conserved(slots0, slots, js, gs) ==> Conserved(slots0, slots, js + [job], gs)
  {
    assert (js + [job])[..|js|] == js;
  }

  /** The state in front of the first job. */
  lemma {:induction false} RunBegins(slots: seq<Slot>, cfg: Config)
    requires cfg.Valid() && SlotTimes(slots)
    ensures RunState(slots, slots, [], [], [], cfg)
  {
    assert forall t, m :: Profile([], t, m) == 0 && Held(slots, [], t, m) == 0 && Waiting(slots, [], t, m) == 0;
    assert forall t :: AccountsAt([], t) == [] == AccountsOf([], t, cfg);
  }

  /** The latest completion of a job, not before now. */
  function LastCompletion(js: seq<Job>, now: int): int {
    if js == [] then now else Max(LastCompletion(js[..|js| - 1], now), js[|js| - 1].completionTime)
  }

  /** Up to when the gaps show all idle CPUs; when there is no job, there are no gaps. */
  ghost function GapsEnd(slots0: seq<Slot>, js: seq<Job>, now: int): int {
    if js == [] then 0 else Min(Latest(TableAfter(slots0, js)), LastCompletion(js, now))
  }

  lemma {:induction false} LatestIff(slots: seq<Slot>, t: int)
    requires t >= 0
    ensures t < Latest(slots) <==> exists x :: 0 <= x < |slots| && t < slots[x].time
  {
    if slots != [] {
      var l := |slots| - 1;
      LatestIff(slots[..l], t);
      if x :| 0 <= x < l && t < slots[..l][x].time {
        assert t < slots[x].time;
      }
      if x :| 0 <= x < l && t < slots[x].time {
        assert t < slots[..l][x].time;
      }
    }
  }

  lemma {:induction false} LastCompletionIff(js: seq<Job>, now: int, t: int)
    ensures t < LastCompletion(js, now) <==> t < now || exists a :: 0 <= a < |js| && t < js[a].completionTime
  {
    if js != [] {
      var l := |js| - 1;
      LastCompletionIff(js[..l], now, t);
      if a :| 0 <= a < l && t < js[..l][a].completionTime {
        assert t < js[a].completionTime;
      }
      if a :| 0 <= a < l && t < js[a].completionTime {
        assert t < js[..l][a].completionTime;
      }
    }
  }

  /** The gaps reach as far as a slot is still to become free, and a job, whatever its state, still to complete. */
  lemma {:induction false} GapsReachIff(slots0: seq<Slot>, js: seq<Job>, table: seq<Slot>, now: int, t: int)
    requires t >= 0 && table == TableAfter(slots0, js)
    ensures t < GapsEnd(slots0, js, now) <==>
            && js != [] && (t < now || exists a :: 0 <= a < |js| && t < js[a].completionTime)
            && exists x :: 0 <= x < |table| && t < table[x].time
  {
    LatestIff(table, t);
    LastCompletionIff(js, now, t);
  }

  /** What the last gaps show although it is not in service: blank slots of nodes that are not down. */
  ghost function Phantom(slots: seq<Slot>, down: set<int>, t: int, m: Measure): nat {
    if 0 <= Earliest(slots) <= t then BlankCount(slots, down, m) else 0
  }

  /**
   At every instant, gaps, planned jobs, slots that wait and running jobs together
   take exactly the CPUs in service, up to the end of the gaps; in addition the last
   gaps show the blank slots of nodes that are not down.
   */
  ghost predicate Accounted(slots0: seq<Slot>, js: seq<Job>, gs: seq<Gap>, down: set<int>, now: int) {
    forall t, m :: t >= 0 ==>
      Profile(gs, t, m) + Held(slots0, js, t, m) + Waiting(slots0, js, t, m) + BusyAt(slots0, t, m) ==
      if t < GapsEnd(slots0, js, now) then InServiceCount(slots0, m) + Phantom(TableAfter(slots0, js), down, t, m)
      else BusyAt(TableAfter(slots0, js), t, m)
  }

  /** When only nodes that are down have no times, no instant takes more than the CPUs in service. */
  lemma {:induction false} NoneOversold(slots0: seq<Slot>, js: seq<Job>, gs: seq<Gap>, down: set<int>, now: int, t: int, m: Measure)
    requires Accounted(slots0, js, gs, down, now) && Grown(slots0, TableAfter(slots0, js)) && t >= 0
    requires InService(slots0, down)
    ensures var all := Profile(gs, t, m) + Held(slots0, js, t, m) + Waiting(slots0, js, t, m) + BusyAt(slots0, t, m);
            all <= InServiceCount(slots0, m) && (t < GapsEnd(slots0, js, now) ==> all == InServiceCount(slots0, m))
  {
    var slots := TableAfter(slots0, js);
    InServiceKept(slots0, slots, m);
    BusyOrFree(slots, t, m);
    NoneBlank(slots, down, m);
  }

  lemma {:induction false} NoneBlank(slots: seq<Slot>, down: set<int>, m: Measure)
    requires forall i :: 0 <= i < |slots| ==> slots[i].time >= 0 || slots[i].node in down
    ensures BlankCount(slots, down, m) == 0
  {
    if slots != [] {
      NoneBlank(slots[..|slots| - 1], down, m);
    }
  }

  /** The gaps behind the last job fill up what is left. */
  lemma {:induction false} RunEnds(slots0: seq<Slot>, slots: seq<Slot>, js: seq<Job>, gs: seq<Gap>, gs': seq<Gap>,
                                   news: seq<Gap>, down: set<int>, now: int)
    requires Grown(slots0, slots) && slots == TableAfter(slots0, js) && Conserved(slots0, slots, js, gs) && js != [] && SlotTimes(slots)
    requires Emitted(news, Shown(slots, down, Earliest(slots)), GapsEnd(slots0, js, now)) && AddsAll(gs, gs', news)
    ensures Accounted(slots0, js, gs', down, now)
  {
    hide Conserved, AddsAll, Grown, SlotTimes, Earliest, GapsEnd;
    var end := GapsEnd(slots0, js, now);
    var shown := Shown(slots, down, Earliest(slots));
    forall t, m | t >= 0
      ensures Profile(gs', t, m) + Held(slots0, js, t, m) + Waiting(slots0, js, t, m) + BusyAt(slots0, t, m) ==
              if t < end then InServiceCount(slots0, m) + Phantom(slots, down, t, m) else BusyAt(slots, t, m)
    {
      TableInService(slots0, slots, m);
      BusyOrFree(slots, t, m);
      FreeOfShown(slots, down, Earliest(slots), t, m);
      assert Profile(news, t, m) == if t < end then FreeBy(shown, t, m) else 0;
      Balance(slots0, slots, js, gs, gs', news, t, m);
    }
  }

  lemma {:induction false} TableInService(slots0: seq<Slot>, slots: seq<Slot>, m: Measure)
    requires Grown(slots0, slots)
    ensures InServiceCount(slots, m) == InServiceCount(slots0, m)
  {
    InServiceKept(slots0, slots, m);
  }

  lemma {:induction false} Balance(slots0: seq<Slot>, slots: seq<Slot>, js: seq<Job>, gs: seq<Gap>, gs': seq<Gap>,
                                   news: seq<Gap>, t: int, m: Measure)
    requires Conserved(slots0, slots, js, gs) && AddsAll(gs, gs', news) && t >= 0
    ensures Profile(gs', t, m) + Held(slots0, js, t, m) + Waiting(slots0, js, t, m) + BusyAt(slots0, t, m) ==
            BusyAt(slots, t, m) + Profile(news, t, m)
  {
  }

  /** Planned jobs begin no earlier than their slots, recorded and given, are free at the outset. */
  ghost predicate StartsFree(slots0: seq<Slot>, js: seq<Job>) {
    forall a :: 0 <= a < |js| && js[a].state == Queued ==>
      OwnSlots(slots0, js[a]) && forall x :: x in js[a].cpuIndexes ==> 0 <= slots0[x].time <= js[a].startTime
  }

  /** What the limits guarantee to the jobs of a run. */
  ghost predicate WithinLimits(js: seq<Job>, cfg: Config)
    requires cfg.Valid()
  {
    && LimitRun(js, cfg)
    && KeepsRoom(js, Everyone, cfg) && QueuedWithinCap(js, Everyone, cfg)
    && (RunningFirst(StatesOf(js)) ==> AllWithinCap(js, cfg))
    && (Ascends(HoldersOf(js)) ==> forall id :: KeepsRoom(js, Only(id), cfg) && QueuedWithinCap(js, Only(id), cfg))
  }

  lemma {:induction false} RunKeepsLimits(js: seq<Job>, cfg: Config)
    requires cfg.Valid() && LimitRun(js, cfg)
    ensures WithinLimits(js, cfg)
  {
    hide LimitRun, KeepsRoom, QueuedWithinCap, AllWithinCap, RunningFirst, Ascends;
    EveryoneHasRoom(js, cfg);
    RoomKeepsCap(js, Everyone, cfg);
    if RunningFirst(StatesOf(js)) {
      AllWithinCapBy(js, cfg);
    }
    if Ascends(HoldersOf(js)) {
      UserRoomBy(js, cfg);
      forall id
        ensures KeepsRoom(js, Only(id), cfg) && QueuedWithinCap(js, Only(id), cfg)
      {
        RoomKeepsCap(js, Only(id), cfg);
      }
    }
  }

  /** What a completed run guarantees. */
  ghost predicate SafePlan(slots0: seq<Slot>, js: seq<Job>, gs: seq<Gap>, vs: seq<Limit>, cfg: Config, down: set<int>, now: int)
    requires cfg.Valid()
  {
    && StartsFree(slots0, js) && NoDoubleBooking(js) && Grown(slots0, TableAfter(slots0, js))
    && GapSequence(gs) && (DistinctSlots(js) ==> Accounted(slots0, js, gs, down, now))
    && Timeline(vs) && Agrees(js, vs, cfg) && RefinesSum(js, vs, cfg) && WithinLimits(js, cfg)
  }

  /** Everything but the gaps is as it has to be. */
  lemma {:induction false} RunIsFree(slots0: seq<Slot>, slots: seq<Slot>, js: seq<Job>, gs: seq<Gap>, vs: seq<Limit>, cfg: Config)
    requires RunState(slots0, slots, js, gs, vs, cfg)
    ensures StartsFree(slots0, js) && NoDoubleBooking(js) && Grown(slots0, TableAfter(slots0, js))
    ensures Timeline(vs) && Agrees(js, vs, cfg) && RefinesSum(js, vs, cfg) && WithinLimits(js, cfg)
  {
    hide Conserved, Grown, GapSequence, Timeline, RefinesSum, NoDoubleBooking, SlotTimes, TableAfter, GivenSlots, LimitRun, Agrees, WithinLimits;
    TimelineIsSum(js, vs, cfg);
    RunKeepsLimits(js, cfg);
    forall a | 0 <= a < |js| && js[a].state == Queued
      ensures OwnSlots(slots0, js[a]) && forall x :: x in js[a].cpuIndexes ==> 0 <= slots0[x].time <= js[a].startTime
    {
      assert HoldsSlots(slots0, slots, js[a]);
    }
  }

  lemma {:induction false} RunIsSafe(slots0: seq<Slot>, slots: seq<Slot>, js: seq<Job>, gs: seq<Gap>, gs': seq<Gap>,
                                     news: seq<Gap>, vs: seq<Limit>, cfg: Config, down: set<int>, now: int)
    requires RunState(slots0, slots, js, gs, vs, cfg) && js != []
    requires Emitted(news, Shown(slots, down, Earliest(slots)), Min(Latest(slots), LastCompletion(js, now)))
    requires AddsAll(gs, gs', news) && GapSequence(gs')
    ensures SafePlan(slots0, js, gs', vs, cfg, down, now)
  {
    hide Conserved, Accounted, Grown, GapSequence, Timeline, RefinesSum, NoDoubleBooking, Emitted, AddsAll, StartsFree, WithinLimits,
         SlotTimes, TableAfter, Latest, LastCompletion, LimitRun, Agrees, AllHold, Shown, Earliest;
    RunIsFree(slots0, slots, js, gs, vs, cfg);
    if DistinctSlots(js) {
      RunEnds(slots0, slots, js, gs, gs', news, down, now);
    }
  }

  /** The run without jobs: nothing is added to the gaps. */
  lemma {:induction false} NoJobsIsSafe(slots0: seq<Slot>, slots: seq<Slot>, gs: seq<Gap>, vs: seq<Limit>, cfg: Config, down: set<int>, now: int)
    requires RunState(slots0, slots, [], gs, vs, cfg)
    ensures SafePlan(slots0, [], gs, vs, cfg, down, now)
  {
    hide WithinLimits, LimitRun, Agrees, Timeline, RefinesSum;
    RunIsFree(slots0, slots, [], gs, vs, cfg);
    assert DistinctSlots([]);
  }
}
