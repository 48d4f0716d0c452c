/**
 Rebuilding the plan of a cluster (update_sched in plan_operations.cpp): walks
 the job list, records running jobs, plans queued ones, and collects the gaps.
 */
module PlanRebuild {
  import opened PlanLists
  import opened PlanJobs
  import opened SlotSelection
  import opened Gaps
  import opened GapEmission
  import opened SlotBooking
  import opened Limits
  import opened LimitRuns
  import opened JobPlanning
  import opened PlanSafety

  /** The two lists share no item. */
  ghost predicate Apart(list: PlanList<Gap>, other: PlanList<Gap>)
    reads list`items, other`items
  {
    list != other &&
    forall i, j :: 0 <= i < |list.items| && 0 <= j < |other.items| ==> list.items[i] != other.items[j]
  }

  /** Adds one gap of another list, and steps on in that list. */
  method InsertItem(list: PlanList<Gap>, newGaps: PlanList<Gap>, newGap: Item<Gap>, ghost k: nat) returns (next: Item?<Gap>)
    requires GapList(list) && newGaps.Valid() && Apart(list, newGaps)
    requires k < |newGaps.items| && newGaps.current == newGap == newGaps.items[k] && WellFormed(newGap.value)
    modifies list, list.items, newGaps`current, newGap`value
    ensures GapList(list) && newGaps.Valid() && Apart(list, newGaps) && newGaps.items == old(newGaps.items)
    ensures forall i :: 0 <= i < |list.items| ==> list.items[i] in old(list.items) || fresh(list.items[i])
    ensures forall i :: 0 <= i < |newGaps.items| && i != k ==> newGaps.items[i].value == old(newGaps.items[i].value)
    ensures Adds(old(list.Values()), list.Values(), old(newGap.value))
    ensures next == newGaps.current == ItemAt(newGaps.items, k + 1)
  {
    hide GapSequence, Adds, WellFormed;
    next := Advance(newGaps, k);
    InsertNewGap(list, null, newGap);
  }

  /** Adds the gaps of a job to the gap list of the cluster. */
  method InsertGaps(list: PlanList<Gap>, newGaps: PlanList<Gap>)
    requires GapList(list) && GapList(newGaps) && Apart(list, newGaps)
    modifies list, list.items, newGaps`current, newGaps.items`value
    ensures GapList(list)
    ensures forall i :: 0 <= i < |list.items| ==> list.items[i] in old(list.items) || fresh(list.items[i])
    ensures AddsAll(old(list.Values()), list.Values(), old(newGaps.Values()))
  {
    hide GapSequence, AddsAll, Adds, WellFormed, Apart, PlanList.Valid;
    ghost var gs, news := list.Values(), newGaps.Values();
    ghost var k: nat := 0;
    AddsNone(gs);
    GapsWellFormed(news);
    var newGap := Rewind(newGaps);
    assert news[..0] == [];
    while newGap != null
      invariant GapList(list) && newGaps.Valid() && newGaps.items == old(newGaps.items)
      invariant k <= |news| && newGap == newGaps.current == ItemAt(newGaps.items, k)
      invariant forall i :: 0 <= i < |list.items| ==> list.items[i] in old(list.items) || fresh(list.items[i])
      invariant forall i :: k <= i < |news| ==> newGaps.items[i].value == news[i]
      invariant Apart(list, newGaps)
      invariant AddsAll(gs, list.Values(), news[..k])
      decreases |news| - k
    {
      ghost var hs := list.Values();
      newGap := InsertItem(list, newGaps, newGap, k);
      AddsOneMore(gs, hs, list.Values(), news, k);
      k := k + 1;
    }
    assert news[..k] == news;
  }

  lemma {:induction false} GapsWellFormed(gs: seq<Gap>)
    requires GapSequence(gs)
    ensures forall i :: 0 <= i < |gs| ==> WellFormed(gs[i])
  {
  }

  /** Planning changes what is planned, nothing of the request; a job that was not fixed is fixed to its nodes from then on. */
  ghost predicate PlanFieldsOnly(was: Job, job: Job) {
    && |job.fixedNames| == |was.fixedNames|
    && job.fixedNames == (if None in was.fixedNames then job.nodes else was.fixedNames)
    && job == was.(startTime := job.startTime, completionTime := job.completionTime, cpuIndexes := job.cpuIndexes,
                nodes := job.nodes, latestCpus := job.latestCpus, fixedNames := job.fixedNames)
  }

  /** Records a planned job in the timeline and adds the gaps in front of it. */
  method RecordPlanned(job: Job, limits: PlanList<Limit>, gaps: PlanList<Gap>, newGaps: PlanList<Gap>, cfg: Config)
    requires GapList(gaps) && GapList(newGaps) && Apart(gaps, newGaps) && LimitList(limits)
    requires WalltimeClass(cfg.thresholds, job.completionTime - job.startTime) < NUM_LIMITS
    modifies limits, limits.items, gaps, gaps.items, newGaps`current, newGaps.items`value
    ensures GapList(gaps) && LimitList(limits)
    ensures forall i :: 0 <= i < |gaps.items| ==> gaps.items[i] in old(gaps.items) || fresh(gaps.items[i])
    ensures forall i :: 0 <= i < |limits.items| ==> limits.items[i] in old(limits.items) || fresh(limits.items[i])
    ensures AddsAll(old(gaps.Values()), gaps.Values(), old(newGaps.Values()))
    ensures Books(old(limits.Values()), limits.Values(), job.startTime, job.completionTime, job.accountId,
                  WalltimeClass(cfg.thresholds, job.completionTime - job.startTime), job.Cpus())
  {
    hide GapSequence, Timeline, Books, AddsAll, WalltimeClass, PlanList.Valid;
    ghost var gs, news := gaps.Values(), newGaps.Values();
    assert forall i, j :: 0 <= i < |gaps.items| && 0 <= j < |limits.items| ==> gaps.items[i] as object != limits.items[j] as object;
    assert forall i, j :: 0 <= i < |newGaps.items| && 0 <= j < |limits.items| ==> newGaps.items[i] as object != limits.items[j] as object;
    AddJobToLimits(limits, job, cfg.thresholds);
    assert gaps.Valid() && gaps.Values() == gs;
    assert newGaps.Valid() && newGaps.Values() == news;
    ghost var vs := limits.Values();
    assert forall i, j :: 0 <= i < |gaps.items| && 0 <= j < |limits.items| ==> gaps.items[i] as object != limits.items[j] as object;
    assert forall i, j :: 0 <= i < |newGaps.items| && 0 <= j < |limits.items| ==> newGaps.items[i] as object != limits.items[j] as object;
    InsertGaps(gaps, newGaps);
    assert limits.Valid() && limits.Values() == vs;
  }

  /** Plans a queued job, records it, and adds its gaps. */
  method PlanQueuedJob(job: Item<Job>, slots: array<Slot>, limits: PlanList<Limit>, gaps: PlanList<Gap>, cfg: Config,
                       fit: seq<Fitness>, ghost slots0: seq<Slot>, ghost js: seq<Job>) returns (ok: bool)
    requires job.value.state == Queued && Plannable(job.value, cfg) && |fit| == slots.Length
    requires RunState(slots0, slots[..], js, gaps.Values(), limits.Values(), cfg)
    requires GapList(gaps) && LimitList(limits)
    modifies job`value, slots, limits, limits.items, gaps, gaps.items
    ensures GapList(gaps) && LimitList(limits)
    ensures forall i :: 0 <= i < |gaps.items| ==> gaps.items[i] in old(gaps.items) || fresh(gaps.items[i])
    ensures forall i :: 0 <= i < |limits.items| ==> limits.items[i] in old(limits.items) || fresh(limits.items[i])
    ensures ok ==> RunState(slots0, slots[..], js + [job.value], gaps.Values(), limits.Values(), cfg)
    ensures ok ==> BestPlan(slots0, old(job.value.fixedNames), js, job.value, fit, cfg)
    ensures ok ==> PlanFieldsOnly(old(job.value), job.value)
    ensures !ok ==> Hopeless(old(slots[..]), old(job.value), fit)
    ensures SameRequest(old(job.value), job.value)
  {
    hide SameRequest, Hopeless, RunState, BestPlan, Planned, PlanFieldsOnly, GapSequence, Timeline, Books, AddsAll, WalltimeClass, Emitted, Plannable, FirstMarks, PlanList.Valid;
    ghost var table, was, gs, vs := slots[..], job.value, gaps.Values(), limits.Values();
    RunReady(slots0, table, js, gs, vs, cfg, was);
    assert forall i :: 0 <= i < |gaps.items| ==> gaps.items[i] as object != job as object;
    var newGaps := UpdateJob(job, slots, limits, cfg, fit);
    assert gaps.Valid() && gaps.Values() == gs;
    if newGaps == null {
      return false;
    }
    ghost var news := newGaps.Values();
    PlannedReady(table, slots[..], was, job.value, news, vs, cfg, FirstMarks(was.fixedNames, was.reqPpn, table, fit));
    RecordPlanned(job.value, limits, gaps, newGaps, cfg);
    QueuedRunStep(slots0, table, slots[..], js, was, job.value, news, gs, gaps.Values(), vs, limits.Values(), cfg, fit);
    ok := true;
  }

  lemma {:induction false} TableIs(slots0: seq<Slot>, slots: seq<Slot>, js: seq<Job>, gs: seq<Gap>, vs: seq<Limit>, cfg: Config)
    requires RunState(slots0, slots, js, gs, vs, cfg)
    ensures slots == TableAfter(slots0, js)
  {
  }

  lemma {:induction false} RunReady(slots0: seq<Slot>, slots: seq<Slot>, js: seq<Job>, gs: seq<Gap>, vs: seq<Limit>, cfg: Config, job: Job)
    requires RunState(slots0, slots, js, gs, vs, cfg) && Plannable(job, cfg)
    ensures cfg.Valid() && SlotTimes(slots) && Settled(vs) && |slots| == |slots0|
    ensures WalltimeClass(cfg.thresholds, job.estimatedProcessing) < |cfg.thresholds|
  {
    hide Timeline, Agrees, LimitRun, WalltimeClass;
    RunIsSettled(js, vs, cfg);
  }

  lemma {:induction false} PlannedReady(slots: seq<Slot>, slots': seq<Slot>, was: Job, job: Job, gs: seq<Gap>,
                                        vs: seq<Limit>, cfg: Config, marks: seq<int>)
    requires |marks| == |slots| && cfg.Valid() && Plannable(was, cfg)
    requires Planned(slots, slots', was, job, gs, vs, cfg, marks)
    ensures GapSequence(gs) && PlanFieldsOnly(was, job)
    ensures WalltimeClass(cfg.thresholds, job.completionTime - job.startTime) < NUM_LIMITS
  {
  }

  /** What a job must bring along: a queued one can be planned, a running one has an interval and a walltime class. */
  ghost predicate Admissible(job: Job, cfg: Config) {
    && job.Cpus() > 0
    && (job.state == Queued ==> Plannable(job, cfg))
    && (job.state == Running ==>
          && job.startTime < job.completionTime
          && WalltimeClass(cfg.thresholds, job.completionTime - job.startTime) < NUM_LIMITS)
  }

  /**
   A run changes what it plans: nothing of the request, and of jobs that are not
   queued only the priority mark. A planned job is fixed to its nodes from then on.
   */
  ghost predicate Replanned(was: Job, job: Job) {
    && |job.fixedNames| == |was.fixedNames|
    && job == was.(priority := job.priority, startTime := job.startTime, completionTime := job.completionTime,
                   cpuIndexes := job.cpuIndexes, nodes := job.nodes, latestCpus := job.latestCpus, fixedNames := job.fixedNames)
    && job.priority == (if was.priority == 56 then 42 else was.priority)
    && (was.state != Queued ==> job == was.(priority := job.priority))
    && (was.state == Queued ==> job.fixedNames == if None in was.fixedNames then job.nodes else was.fixedNames)
  }

  /** Records a running job; the gaps do not know of it. */
  method RecordRunning(job: Job, limits: PlanList<Limit>, gaps: PlanList<Gap>, cfg: Config,
                       ghost slots0: seq<Slot>, ghost slots: seq<Slot>, ghost js: seq<Job>)
    requires job.state == Running && Admissible(job, cfg)
    requires RunState(slots0, slots, js, gaps.Values(), limits.Values(), cfg)
    requires GapList(gaps) && LimitList(limits)
    modifies limits, limits.items
    ensures GapList(gaps) && LimitList(limits)
    ensures forall i :: 0 <= i < |limits.items| ==> limits.items[i] in old(limits.items) || fresh(limits.items[i])
    ensures RunState(slots0, slots, js + [job], gaps.Values(), limits.Values(), cfg)
  {
    hide RunState, GapSequence, Timeline, Books, WalltimeClass, Plannable, PlanList.Valid;
    ghost var gs, vs := gaps.Values(), limits.Values();
    assert forall i, j :: 0 <= i < |gaps.items| && 0 <= j < |limits.items| ==> gaps.items[i] as object != limits.items[j] as object;
    AddJobToLimits(limits, job, cfg.thresholds);
    assert gaps.Valid() && gaps.Values() == gs;
    OtherRunStep(slots0, slots, js, job, gs, vs, limits.Values(), cfg);
  }

  /** One turn of the rebuilding loop. */
  method PlanItem(job: Item<Job>, slots: array<Slot>, limits: PlanList<Limit>, gaps: PlanList<Gap>, cfg: Config,
                  fit: seq<Fitness>, ghost slots0: seq<Slot>, ghost js: seq<Job>) returns (ok: bool)
    requires Admissible(job.value, cfg) && |fit| == slots.Length
    requires RunState(slots0, slots[..], js, gaps.Values(), limits.Values(), cfg)
    requires GapList(gaps) && LimitList(limits)
    modifies job`value, slots, limits, limits.items, gaps, gaps.items
    ensures GapList(gaps) && LimitList(limits)
    ensures forall i :: 0 <= i < |gaps.items| ==> gaps.items[i] in old(gaps.items) || fresh(gaps.items[i])
    ensures forall i :: 0 <= i < |limits.items| ==> limits.items[i] in old(limits.items) || fresh(limits.items[i])
    ensures ok ==> RunState(slots0, slots[..], js + [job.value], gaps.Values(), limits.Values(), cfg)
    ensures ok && job.value.state == Queued ==> BestPlan(slots0, old(job.value.fixedNames), js, job.value, fit, cfg)
    ensures if ok then Replanned(old(job.value), job.value)
            else old(job.value).state == Queued && Hopeless(old(slots[..]), old(job.value), fit)
    ensures SameRequest(old(job.value), job.value)
  {
    hide RunState, BestPlan, GapSequence, Timeline, Books, WalltimeClass, Plannable, PlanList.Valid;
    ghost var gs, vs := gaps.Values(), limits.Values();
    assert forall i :: 0 <= i < |gaps.items| ==> gaps.items[i] as object != job as object;
    assert forall i :: 0 <= i < |limits.items| ==> limits.items[i] as object != job as object;
    ghost var was := job.value;
    if job.value.priority == 56 {
      job.value := job.value.(priority := 42);
      PriorityIgnored(was, job.value, cfg);
      HopelessIgnoresPriority(slots[..], was, job.value, fit);
      assert gaps.Valid() && gaps.Values() == gs && limits.Valid() && limits.Values() == vs;
    }
    ok := true;
    if job.value.state == Running {
      RecordRunning(job.value, limits, gaps, cfg, slots0, slots[..], js);
    }
    if job.value.state == Queued {
      ok := PlanQueuedJob(job, slots, limits, gaps, cfg, fit, slots0, js);
    } else if job.value.state != Running {
      OtherRunStep(slots0, slots[..], js, job.value, gs, vs, vs, cfg);
    }
  }

  lemma {:induction false} HopelessIgnoresPriority(slots: seq<Slot>, was: Job, job: Job, fit: seq<Fitness>)
    requires |fit| == |slots| && job == was.(priority := job.priority)
    ensures Hopeless(slots, job, fit) ==> Hopeless(slots, was, fit)
  {
    assert job.fixedNames == was.fixedNames;
  }

  lemma {:induction false} PriorityIgnored(was: Job, job: Job, cfg: Config)
    requires job == was.(priority := job.priority)
    ensures Plannable(was, cfg) ==> Plannable(job, cfg)
  {
  }

  /** Plans the job at position k of the list. */
  method PlanInPlace(jobs: PlanList<Job>, job: Item<Job>, slots: array<Slot>, limits: PlanList<Limit>, gaps: PlanList<Gap>, cfg: Config,
                     fit: seq<Fitness>, ghost slots0: seq<Slot>, ghost k: nat) returns (ok: bool)
    requires jobs.Valid() && k < |jobs.items| && jobs.items[k] == job
    requires Admissible(job.value, cfg) && |fit| == slots.Length
    requires RunState(slots0, slots[..], jobs.Values()[..k], gaps.Values(), limits.Values(), cfg)
    requires GapList(gaps) && LimitList(limits)
    modifies job`value, slots, limits, limits.items, gaps, gaps.items
    ensures GapList(gaps) && LimitList(limits) && jobs.Valid()
    ensures jobs.items == old(jobs.items) && jobs.current == old(jobs.current)
    ensures jobs.Values() == old(jobs.Values())[k := job.value]
    ensures forall i :: 0 <= i < |gaps.items| ==> gaps.items[i] in old(gaps.items) || fresh(gaps.items[i])
    ensures forall i :: 0 <= i < |limits.items| ==> limits.items[i] in old(limits.items) || fresh(limits.items[i])
    ensures ok ==> RunState(slots0, slots[..], jobs.Values()[..k + 1], gaps.Values(), limits.Values(), cfg)
    ensures ok && job.value.state == Queued ==>
              BestPlan(slots0, old(job.value.fixedNames), old(jobs.Values())[..k], job.value, fit, cfg)
    ensures if ok then Replanned(old(job.value), job.value)
            else old(job.value).state == Queued && Hopeless(old(slots[..]), old(job.value), fit)
    ensures SameRequest(old(job.value), job.value)
  {
    hide RunState, BestPlan, GapSequence, Timeline, Admissible, Replanned, Hopeless, SameRequest, PlanList.Valid;
    ghost var vals := jobs.Values();
    ghost var items := jobs.items;
    ItemsDiffer(jobs, k);
    assert forall i, j :: 0 <= i < |items| && 0 <= j < |gaps.items| ==> items[i] as object != gaps.items[j] as object;
    assert forall i, j :: 0 <= i < |items| && 0 <= j < |limits.items| ==> items[i] as object != limits.items[j] as object;
    ok := PlanItem(job, slots, limits, gaps, cfg, fit, slots0, vals[..k]);
    assert jobs.items == items;
    assert forall i :: 0 <= i < |items| && i != k ==> items[i].value == vals[i];
    assert jobs.Values() == vals[k := job.value];
    assert jobs.Values()[..k + 1] == vals[..k] + [job.value];
  }

  /** Plans the job at position k of the list, and steps on. */
  method PlanAt(jobs: PlanList<Job>, job: Item<Job>, slots: array<Slot>, limits: PlanList<Limit>, gaps: PlanList<Gap>, cfg: Config,
                fit: seq<Fitness>, ghost slots0: seq<Slot>, ghost k: nat) returns (ok: bool, next: Item?<Job>)
    requires jobs.Valid() && k < |jobs.items| && jobs.items[k] == job == jobs.current
    requires Admissible(job.value, cfg) && |fit| == slots.Length
    requires RunState(slots0, slots[..], jobs.Values()[..k], gaps.Values(), limits.Values(), cfg)
    requires GapList(gaps) && LimitList(limits)
    modifies jobs`current, job`value, slots, limits, limits.items, gaps, gaps.items
    ensures GapList(gaps) && LimitList(limits) && jobs.Valid()
    ensures jobs.items == old(jobs.items) && (ok ==> next == jobs.current == ItemAt(jobs.items, k + 1))
    ensures jobs.Values() == old(jobs.Values())[k := job.value]
    ensures forall i :: 0 <= i < |gaps.items| ==> gaps.items[i] in old(gaps.items) || fresh(gaps.items[i])
    ensures forall i :: 0 <= i < |limits.items| ==> limits.items[i] in old(limits.items) || fresh(limits.items[i])
    ensures ok ==> RunState(slots0, slots[..], jobs.Values()[..k + 1], gaps.Values(), limits.Values(), cfg)
    ensures ok && job.value.state == Queued ==>
              BestPlan(slots0, old(job.value.fixedNames), old(jobs.Values())[..k], job.value, fit, cfg)
    ensures if ok then Replanned(old(job.value), job.value)
            else old(job.value).state == Queued && Hopeless(old(slots[..]), old(job.value), fit)
    ensures SameRequest(old(job.value), job.value)
  {
    hide RunState, BestPlan, GapSequence, Timeline, Admissible, Replanned, Hopeless, SameRequest, PlanList.Valid;
    ok := PlanInPlace(jobs, job, slots, limits, gaps, cfg, fit, slots0, k);
    next := null;
    if ok {
      ghost var gs, vs := gaps.Values(), limits.Values();
      assert jobs as object != gaps as object && jobs as object != limits as object;
      next := Advance(jobs, k);
      assert gaps.Valid() && gaps.Values() == gs && limits.Valid() && limits.Values() == vs;
    }
  }

  /** One queued job is gone; the jobs in front of it are planned anew, the jobs behind it are as they were. */
  ghost predicate Dropped(was: seq<Job>, js: seq<Job>, k: nat) {
    && k < |was| && |js| == |was| - 1 && was[k].state == Queued
    && (forall i :: 0 <= i < k ==> Replanned(was[i], js[i]))
    && forall i :: k <= i < |js| ==> js[i] == was[i + 1]
  }

  lemma {:induction false} LastCompletionNext(js: seq<Job>, k: nat, now: int)
    requires k < |js|
    ensures LastCompletion(js[..k + 1], now) == Max(LastCompletion(js[..k], now), js[k].completionTime)
  {
    assert js[..k + 1][..k] == js[..k];
  }

  /** Whatever happens to the list, the records of its items keep their requests. */
  ghost predicate RequestsKept(items: seq<Item<Job>>, was: seq<Job>)
    requires |items| == |was|
    reads items
  {
    forall i :: 0 <= i < |items| ==> SameRequest(was[i], items[i].value)
  }

  /** The first k jobs are planned anew, the others are as they were. */
  ghost predicate Walked(was: seq<Job>, js: seq<Job>, k: nat) {
    && k <= |js| == |was|
    && (forall i :: 0 <= i < k ==> Replanned(was[i], js[i]))
    && forall i :: k <= i < |js| ==> js[i] == was[i]
  }

  /** The planning of job k has failed. */
  ghost predicate Failing(was: seq<Job>, js: seq<Job>, k: nat) {
    && k < |js| == |was| && was[k].state == Queued && SameRequest(was[k], js[k])
    && (forall i :: 0 <= i < k ==> Replanned(was[i], js[i]))
    && forall i :: k < i < |js| ==> js[i] == was[i]
  }

  lemma {:induction false} WalkBegins(was: seq<Job>, now: int)
    ensures Walked(was, was, 0) && was[..0] == [] && LastCompletion([], now) == now
  {
  }

  lemma {:induction false} WellPlannedNone(slots0: seq<Slot>, was: seq<Job>, fit: (nat, nat) -> Fitness, cfg: Config)
    ensures WellPlanned(slots0, was, [], fit, cfg)
  {
  }

  lemma {:induction false} WalkedAt(was: seq<Job>, js: seq<Job>, k: nat)
    requires Walked(was, js, k) && k < |was|
    ensures |js| == |was| && js[k] == was[k]
  {
  }

  lemma {:induction false} WalkedNext(was: seq<Job>, js: seq<Job>, js': seq<Job>, k: nat)
    requires Walked(was, js, k) && k < |js| == |js'| && js' == js[k := js'[k]] && Replanned(was[k], js'[k])
    ensures Walked(was, js', k + 1)
  {
  }

  /** One more job is planned. */
  lemma {:induction false} WalkedOn(slots0: seq<Slot>, was: seq<Job>, js: seq<Job>, js': seq<Job>, k: nat, fit: (nat, nat) -> Fitness,
                                    cfg: Config, now: int)
    requires Walked(was, js, k) && k < |js| == |js'| && js' == js[k := js'[k]] && Replanned(was[k], js'[k])
    requires WellPlanned(slots0, was, js[..k], fit, cfg)
    requires js'[k].state == Queued ==> BestPlan(slots0, js[k].fixedNames, js[..k], js'[k], FitnessRow(fit, k, |slots0|), cfg)
    ensures Walked(was, js', k + 1) && WellPlanned(slots0, was, js'[..k + 1], fit, cfg)
    ensures LastCompletion(js'[..k + 1], now) == Max(LastCompletion(js[..k], now), js'[k].completionTime)
  {
    hide BestPlan, WellPlanned, Replanned;
    WalkedNext(was, js, js', k);
    WellPlannedNext(slots0, was, js[..k], js'[k], fit, cfg);
    assert js'[..k + 1] == js[..k] + [js'[k]];
    LastCompletionNext(js', k, now);
    assert js'[..k] == js[..k];
  }

  lemma {:induction false} WalkedFails(was: seq<Job>, js: seq<Job>, js': seq<Job>, k: nat)
    requires Walked(was, js, k) && k < |js| == |js'| && js' == js[k := js'[k]]
    requires was[k].state == Queued && SameRequest(was[k], js'[k])
    ensures Failing(was, js', k)
  {
  }

  lemma {:induction false} WalkEnds(items: seq<Item<Job>>, was: seq<Job>, js: seq<Job>)
    requires Walked(was, js, |was|) && |items| == |js| && forall i :: 0 <= i < |items| ==> items[i].value == js[i]
    ensures RequestsKept(items, was) && forall i :: 0 <= i < |js| ==> Replanned(was[i], js[i])
  {
  }

  lemma {:induction false} FailingDrops(items: seq<Item<Job>>, was: seq<Job>, js: seq<Job>, k: nat)
    requires Failing(was, js, k) && |items| == |js| && forall i :: 0 <= i < |items| ==> items[i].value == js[i]
    ensures Dropped(was, Delete(js, k), k) && RequestsKept(items, was)
  {
  }

  /** The dropped job finds no slots in the table that the jobs in front of it leave. */
  ghost predicate NoSlotsFor(slots0: seq<Slot>, was: seq<Job>, js: seq<Job>, k: nat, fit: (nat, nat) -> Fitness) {
    k < |was| && k <= |js| && Hopeless(TableAfter(slots0, js[..k]), was[k], FitnessRow(fit, k, |slots0|))
  }

  lemma {:induction false} NoSlotsLeft(slots0: seq<Slot>, was: seq<Job>, js: seq<Job>, js': seq<Job>, k: nat, fit: (nat, nat) -> Fitness)
    requires Walked(was, js, k) && k < |js| == |js'| && js' == js[k := js'[k]]
    requires Hopeless(TableAfter(slots0, js[..k]), js[k], FitnessRow(fit, k, |slots0|))
    ensures NoSlotsFor(slots0, was, Delete(js', k), k, fit)
    ensures k <= |Delete(js', k)| && Delete(js', k)[..k] == js[..k]
  {
    hide Hopeless;
    assert Delete(js', k)[..k] == js[..k];
  }

  /** What can be planned once can be planned again. */
  lemma {:induction false} DroppedAdmissible(was: seq<Job>, js: seq<Job>, k: nat, cfg: Config)
    requires Dropped(was, js, k) && forall i :: 0 <= i < |was| ==> Admissible(was[i], cfg)
    ensures forall i :: 0 <= i < |js| ==> Admissible(js[i], cfg)
  {
  }

  /** The walk has stopped at job k, which finds no slots and is gone; the jobs in front of it have their best plans. */
  ghost predicate Stopped(slots0: seq<Slot>, was: seq<Job>, js: seq<Job>, k: nat, fit: (nat, nat) -> Fitness, cfg: Config) {
    && Dropped(was, js, k) && NoSlotsFor(slots0, was, js, k, fit)
    && k <= |js| && WellPlanned(slots0, was, js[..k], fit, cfg)
  }

  ghost predicate AllReplanned(was: seq<Job>, js: seq<Job>) {
    |js| == |was| && forall i :: 0 <= i < |js| ==> Replanned(was[i], js[i])
  }

  /** The walk in front of job k. */
  ghost predicate Walking(slots0: seq<Slot>, was: seq<Job>, js: seq<Job>, k: nat, fit: (nat, nat) -> Fitness, cfg: Config, now: int, latest: int) {
    Walked(was, js, k) && WellPlanned(slots0, was, js[..k], fit, cfg) && latest == LastCompletion(js[..k], now)
  }

  lemma {:induction false} WalkingBegins(slots0: seq<Slot>, was: seq<Job>, fit: (nat, nat) -> Fitness, cfg: Config, now: int)
    ensures Walking(slots0, was, was, 0, fit, cfg, now, now) && was[..0] == []
  {
    WalkBegins(was, now);
    WellPlannedNone(slots0, was, fit, cfg);
  }

  lemma {:induction false} WalkingEnds(slots0: seq<Slot>, items: seq<Item<Job>>, was: seq<Job>, js: seq<Job>, fit: (nat, nat) -> Fitness, cfg: Config,
                                       now: int, latest: int)
    requires Walking(slots0, was, js, |was|, fit, cfg, now, latest) && |items| == |js|
    requires forall i :: 0 <= i < |items| ==> items[i].value == js[i]
    ensures RequestsKept(items, was) && AllReplanned(was, js) && WellPlanned(slots0, was, js, fit, cfg) && latest == LastCompletion(js, now)
    ensures js[..|was|] == js
  {
    hide WellPlanned, LastCompletion, RequestsKept;
    WalkEnds(items, was, js);
    assert js[..|was|] == js;
  }

  lemma {:induction false} WalkingOn(slots0: seq<Slot>, was: seq<Job>, js: seq<Job>, js': seq<Job>, k: nat, fit: (nat, nat) -> Fitness,
                                     cfg: Config, now: int, latest: int)
    requires Walking(slots0, was, js, k, fit, cfg, now, latest)
    requires k < |was| == |js| == |js'| && js' == js[k := js'[k]] && Replanned(js[k], js'[k])
    requires js'[k].state == Queued ==> BestPlan(slots0, js[k].fixedNames, js[..k], js'[k], FitnessRow(fit, k, |slots0|), cfg)
    ensures Walking(slots0, was, js', k + 1, fit, cfg, now, Max(latest, js'[k].completionTime))
  {
    hide WellPlanned, LastCompletion, Walked, Replanned, BestPlan, FitnessRow;
    WalkedAt(was, js, k);
    WalkedOn(slots0, was, js, js', k, fit, cfg, now);
  }

  /** Where planning fails, the walk stops. */
  lemma {:induction false} WalkingStops(slots0: seq<Slot>, was: seq<Job>, js: seq<Job>, js': seq<Job>, k: nat, fit: (nat, nat) -> Fitness,
                                        cfg: Config, now: int, latest: int)
    requires Walking(slots0, was, js, k, fit, cfg, now, latest)
    requires k < |was| == |js| == |js'| && js' == js[k := js'[k]] && js[k].state == Queued && SameRequest(js[k], js'[k])
    requires Hopeless(TableAfter(slots0, js[..k]), js[k], FitnessRow(fit, k, |slots0|))
    ensures Failing(was, js', k)
    ensures Dropped(was, Delete(js', k), k) ==> Stopped(slots0, was, Delete(js', k), k, fit, cfg)
  {
    hide WellPlanned, LastCompletion, Walked, Failing, Dropped, NoSlotsFor, Hopeless, FitnessRow, SameRequest;
    WalkedAt(was, js, k);
    WalkedFails(was, js, js', k);
    NoSlotsLeft(slots0, was, js, js', k, fit);
  }

  /** One turn of the walk: plans job k and steps on, or removes it. */
  method WalkOne(jobs: PlanList<Job>, job: Item<Job>, slots: array<Slot>, limits: PlanList<Limit>, gaps: PlanList<Gap>, cfg: Config,
                 fit: (nat, nat) -> Fitness, turn: nat, ghost now: int, ghost slots0: seq<Slot>, ghost was: seq<Job>, ghost latest: int)
    returns (ok: bool, next: Item?<Job>)
    requires jobs.Valid() && turn < |jobs.items| && jobs.items[turn] == job == jobs.current
    requires Admissible(job.value, cfg) && GapList(gaps) && LimitList(limits)
    requires Walking(slots0, was, jobs.Values(), turn, fit, cfg, now, latest) && |was| == |jobs.items|
    requires RunState(slots0, slots[..], jobs.Values()[..turn], gaps.Values(), limits.Values(), cfg)
    modifies jobs, jobs.items, slots, limits, limits.items, gaps, gaps.items
    ensures jobs.Valid() && GapList(gaps) && LimitList(limits)
    ensures forall i :: 0 <= i < |gaps.items| ==> gaps.items[i] in old(gaps.items) || fresh(gaps.items[i])
    ensures forall i :: 0 <= i < |limits.items| ==> limits.items[i] in old(limits.items) || fresh(limits.items[i])
    ensures ok ==> jobs.items == old(jobs.items) && next == jobs.current == ItemAt(jobs.items, turn + 1)
    ensures ok ==> jobs.Values() == old(jobs.Values())[turn := job.value]
    ensures ok ==> Walking(slots0, was, jobs.Values(), turn + 1, fit, cfg, now, Max(latest, job.value.completionTime))
    ensures ok ==> RunState(slots0, slots[..], jobs.Values()[..turn + 1], gaps.Values(), limits.Values(), cfg)
    ensures !ok ==> jobs.items == Delete(old(jobs.items), turn) && Stopped(slots0, was, jobs.Values(), turn, fit, cfg)
    ensures !ok ==> RequestsKept(old(jobs.items), was)
  {
    hide RunState, BestPlan, WellPlanned, GapSequence, Timeline, Admissible, Replanned, Hopeless, SameRequest, RequestsKept, Dropped,
         Walking, Stopped, Failing, FitnessRow, TableAfter, Delete, PlanList.Valid;
    ghost var js := jobs.Values();
    TableIs(slots0, slots[..], js[..turn], gaps.Values(), limits.Values(), cfg);
    ok, next := PlanAt(jobs, job, slots, limits, gaps, cfg, FitnessRow(fit, turn, slots.Length), slots0, turn);
    if ok {
      WalkingOn(slots0, was, js, jobs.Values(), turn, fit, cfg, now, latest);
    } else {
      WalkingStops(slots0, was, js, jobs.Values(), turn, fit, cfg, now, latest);
      RemoveFailed(jobs, job, limits, gaps, was, turn);
    }
  }

  /** Plans one job after the other; stops at a job for which no slots can be found, and removes it. */
  method WalkJobs(jobs: PlanList<Job>, slots: array<Slot>, limits: PlanList<Limit>, gaps: PlanList<Gap>, cfg: Config,
                  fit: (nat, nat) -> Fitness, now: int, ghost slots0: seq<Slot>) returns (ok: bool, maxCompletionTime: int, ghost k: nat)
    requires jobs.Valid() && GapList(gaps) && LimitList(limits)
    requires forall i :: 0 <= i < |jobs.Values()| ==> Admissible(jobs.Values()[i], cfg)
    requires RunState(slots0, slots[..], [], gaps.Values(), limits.Values(), cfg)
    modifies jobs, jobs.items, slots, limits, limits.items, gaps, gaps.items
    ensures jobs.Valid() && GapList(gaps) && LimitList(limits)
    ensures forall i :: 0 <= i < |gaps.items| ==> gaps.items[i] in old(gaps.items) || fresh(gaps.items[i])
    ensures forall i :: 0 <= i < |limits.items| ==> limits.items[i] in old(limits.items) || fresh(limits.items[i])
    ensures ok ==> jobs.items == old(jobs.items) && AllReplanned(old(jobs.Values()), jobs.Values())
    ensures ok ==> RunState(slots0, slots[..], jobs.Values(), gaps.Values(), limits.Values(), cfg)
    ensures ok ==> maxCompletionTime == LastCompletion(jobs.Values(), now)
    ensures ok ==> WellPlanned(slots0, old(jobs.Values()), jobs.Values(), fit, cfg)
    ensures !ok ==> k < |old(jobs.items)| && jobs.items == Delete(old(jobs.items), k)
    ensures !ok ==> Stopped(slots0, old(jobs.Values()), jobs.Values(), k, fit, cfg)
    ensures RequestsKept(old(jobs.items), old(jobs.Values()))
  {
    hide RunState, WellPlanned, GapSequence, Timeline, Admissible, AllReplanned, RequestsKept, Walking, Stopped, LastCompletion, Delete, PlanList.Valid;
    ghost var was, items := jobs.Values(), jobs.items;
    maxCompletionTime := now;
    var turn: nat := 0;
    WalkingBegins(slots0, was, fit, cfg, now);
    var job := RewindJobs(jobs, limits, gaps);
    while job != null
      invariant jobs.Valid() && jobs.items == items && GapList(gaps) && LimitList(limits)
      invariant turn <= |was| && job == jobs.current == ItemAt(items, turn)
      invariant Walking(slots0, was, jobs.Values(), turn, fit, cfg, now, maxCompletionTime)
      invariant forall i :: turn <= i < |was| ==> jobs.Values()[i] == was[i]
      invariant forall i :: 0 <= i < |gaps.items| ==> gaps.items[i] in old(gaps.items) || fresh(gaps.items[i])
      invariant forall i :: 0 <= i < |limits.items| ==> limits.items[i] in old(limits.items) || fresh(limits.items[i])
      invariant RunState(slots0, slots[..], jobs.Values()[..turn], gaps.Values(), limits.Values(), cfg)
      decreases |was| - turn
    {
      var next;
      ok, next := WalkOne(jobs, job, slots, limits, gaps, cfg, fit, turn, now, slots0, was, maxCompletionTime);
      if !ok {
        k := turn;
        return;
      }
      if maxCompletionTime < job.value.completionTime {
        maxCompletionTime := job.value.completionTime;
      }
      job := next;
      turn := turn + 1;
    }
    WalkingEnds(slots0, items, was, jobs.Values(), fit, cfg, now, maxCompletionTime);
    ok := true;
    k := turn;
  }

  method RewindJobs(jobs: PlanList<Job>, limits: PlanList<Limit>, gaps: PlanList<Gap>) returns (r: Item?<Job>)
    requires jobs.Valid() && GapList(gaps) && LimitList(limits)
    modifies jobs`current
    ensures jobs.Valid() && jobs.Values() == old(jobs.Values())
    ensures r == jobs.current == ItemAt(jobs.items, 0)
    ensures GapList(gaps) && LimitList(limits) && gaps.Values() == old(gaps.Values()) && limits.Values() == old(limits.Values())
  {
    assert jobs as object != gaps as object && jobs as object != limits as object;
    r := Rewind(jobs);
  }

  /** Removes a job from the plan, which does not touch gaps and limits. */
  method RemoveFailed(jobs: PlanList<Job>, job: Item<Job>, limits: PlanList<Limit>, gaps: PlanList<Gap>,
                      ghost was: seq<Job>, ghost k: nat)
    requires jobs.Valid() && k < |jobs.items| && jobs.items[k] == job && GapList(gaps) && LimitList(limits)
    requires Failing(was, jobs.Values(), k)
    modifies jobs, jobs.items`successor, jobs.items`predecessor
    ensures jobs.Valid() && jobs.items == Delete(old(jobs.items), k) && jobs.Values() == Delete(old(jobs.Values()), k)
    ensures Dropped(was, jobs.Values(), k)
    ensures |was| == |old(jobs.items)| && RequestsKept(old(jobs.items), was)
    ensures GapList(gaps) && LimitList(limits)
  {
    hide GapSequence, Timeline, Replanned, Failing, Dropped, RequestsKept, PlanList.Valid;
    ghost var items, js := jobs.items, jobs.Values();
    ghost var gs, vs := gaps.Values(), limits.Values();
    assert jobs as object != gaps as object && jobs as object != limits as object;
    assert forall i, j :: 0 <= i < |jobs.items| && 0 <= j < |gaps.items| ==> jobs.items[i] as object != gaps.items[j] as object;
    assert forall i, j :: 0 <= i < |jobs.items| && 0 <= j < |limits.items| ==> jobs.items[i] as object != limits.items[j] as object;
    TakeOut(jobs, job, k);
    FailingDrops(items, was, js, k);
    assert gaps.Valid() && gaps.Values() == gs && limits.Valid() && limits.Values() == vs;
  }

  /**
   Rebuilds the plan of a cluster from its jobs and its slots. Returns 0 with a
   safe plan, or 2 after removing a job for which no slots can be found.
   */
  method RebuildPlan(jobs: PlanList<Job>, slots: array<Slot>, cfg: Config, fit: (nat, nat) -> Fitness, down: set<int>, now: int)
    returns (r: int, limits: PlanList<Limit>, gaps: PlanList<Gap>, ghost k: nat)
    requires jobs.Valid() && cfg.Valid() && SlotTimes(slots[..]) && DownBlank(slots[..], down)
    requires forall i :: 0 <= i < |jobs.Values()| ==> Admissible(jobs.Values()[i], cfg)
    modifies jobs, jobs.items, slots
    ensures jobs.Valid() && (r == 0 || r == 2)
    ensures r == 0 ==> jobs.items == old(jobs.items) && AllReplanned(old(jobs.Values()), jobs.Values())
    ensures r == 0 ==> SafePlan(old(slots[..]), jobs.Values(), gaps.Values(), limits.Values(), cfg, down, now)
    ensures r == 0 ==> WellPlanned(old(slots[..]), old(jobs.Values()), jobs.Values(), fit, cfg)
    ensures r == 2 ==> k < |old(jobs.items)| && jobs.items == Delete(old(jobs.items), k)
    ensures r == 2 ==> Stopped(old(slots[..]), old(jobs.Values()), jobs.Values(), k, fit, cfg)
    ensures RequestsKept(old(jobs.items), old(jobs.Values()))
  {
    hide RunState, SafePlan, WellPlanned, GapSequence, Timeline, Admissible, AllReplanned, Stopped, RequestsKept, DownBlank, PlanList.Valid;
    ghost var slots0, was := slots[..], jobs.Values();
    limits := new PlanList<Limit>();
    gaps := new PlanList<Gap>();
    assert limits.Values() == [] && gaps.Values() == [];
    assert jobs.Values() == was;
    RebuildBegins(slots0, cfg);
    var ok, maxCompletionTime;
    ok, maxCompletionTime, k := WalkJobs(jobs, slots, limits, gaps, cfg, fit, now, slots0);
    if !ok {
      return 2, limits, gaps, k;
    }
    CloseRun(jobs, slots, limits, gaps, cfg, down, maxCompletionTime, slots0, now);
    r := 0;
  }

  /** Adds the gaps behind the last job, if there is any job. */
  method CloseRun(jobs: PlanList<Job>, slots: array<Slot>, limits: PlanList<Limit>, gaps: PlanList<Gap>, cfg: Config,
                  down: set<int>, maxCompletionTime: int, ghost slots0: seq<Slot>, ghost now: int)
    requires maxCompletionTime == LastCompletion(jobs.Values(), now)
    requires jobs.Valid() && GapList(gaps) && LimitList(limits) && DownBlank(slots0, down)
    requires RunState(slots0, slots[..], jobs.Values(), gaps.Values(), limits.Values(), cfg)
    modifies gaps, gaps.items
    ensures jobs.Valid() && jobs.Values() == old(jobs.Values()) && cfg.Valid()
    ensures SafePlan(slots0, jobs.Values(), gaps.Values(), limits.Values(), cfg, down, now)
  {
    hide RunState, SafePlan, GapSequence, Timeline, DownBlank;
    ghost var js, vs := jobs.Values(), limits.Values();
    RunIsValid(slots0, slots[..], js, gaps.Values(), vs, cfg);
    assert jobs as object != gaps as object && limits as object != gaps as object;
    assert forall i, j :: 0 <= i < |jobs.items| && 0 <= j < |gaps.items| ==> jobs.items[i] as object != gaps.items[j] as object;
    assert forall i, j :: 0 <= i < |limits.items| && 0 <= j < |gaps.items| ==> limits.items[i] as object != gaps.items[j] as object;
    if jobs.numItems > 0 {
      FillUp(slots, gaps, down, maxCompletionTime, slots0, js, vs, cfg, now);
    } else {
      assert js == [];
      NoJobsIsSafe(slots0, slots[..], gaps.Values(), vs, cfg, down, now);
    }
    assert jobs.Valid() && jobs.Values() == js && limits.Values() == vs;
  }

  lemma {:induction false} RunIsValid(slots0: seq<Slot>, slots: seq<Slot>, js: seq<Job>, gs: seq<Gap>, vs: seq<Limit>, cfg: Config)
    requires RunState(slots0, slots, js, gs, vs, cfg)
    ensures cfg.Valid() && SlotTimes(slots)
  {
  }

  lemma {:induction false} RebuildBegins(slots: seq<Slot>, cfg: Config)
    requires cfg.Valid() && SlotTimes(slots)
    ensures GapSequence([]) && Timeline([]) && RunState(slots, slots, [], [], [], cfg)
  {
    RunBegins(slots, cfg);
  }

  lemma {:induction false} StillBlank(slots0: seq<Slot>, slots: seq<Slot>, js: seq<Job>, gs: seq<Gap>, vs: seq<Limit>, cfg: Config, down: set<int>)
    requires RunState(slots0, slots, js, gs, vs, cfg) && DownBlank(slots0, down)
    ensures DownBlank(slots, down) && SlotTimes(slots)
  {
  }

  /** Adds the gaps behind the last job. */
  method FillUp(slots: array<Slot>, gaps: PlanList<Gap>, down: set<int>, maxCompletionTime: int,
                ghost slots0: seq<Slot>, ghost js: seq<Job>, ghost vs: seq<Limit>, ghost cfg: Config, ghost now: int)
    requires maxCompletionTime == LastCompletion(js, now) && js != [] && cfg.Valid()
    requires GapList(gaps) && DownBlank(slots0, down)
    requires RunState(slots0, slots[..], js, gaps.Values(), vs, cfg)
    modifies gaps, gaps.items
    ensures GapList(gaps) && SafePlan(slots0, js, gaps.Values(), vs, cfg, down, now)
  {
    hide RunState, SafePlan, GapSequence, AddsAll, DownBlank, SlotTimes, Emitted, Shown, Earliest, Latest;
    ghost var gs := gaps.Values();
    StillBlank(slots0, slots[..], js, gs, vs, cfg, down);
    var newGaps := GapCreateNotTheLast(slots[..], down, maxCompletionTime);
    ghost var news := newGaps.Values();
    EmittedIsSequence(news, Shown(slots[..], down, Earliest(slots[..])), Min(Latest(slots[..]), maxCompletionTime));
    InsertGaps(gaps, newGaps);
    RunIsSafe(slots0, slots[..], js, gs, gaps.Values(), news, vs, cfg, down, now);
  }

  lemma {:induction false} EmittedIsSequence(gs: seq<Gap>, slots: seq<Slot>, end: int)
    requires Emitted(gs, slots, end)
    ensures GapSequence(gs)
  {
  }
}
