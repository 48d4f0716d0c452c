/**
 One scheduling cycle of a cluster: update_sched (plan_operations.cpp) from the
 state of the nodes to the plan, and the loop that repeats it until no job is in
 the way (SchedulerRealm.cpp).
 */
module SchedUpdate {
  import opened PlanLists
  import opened PlanJobs
  import opened SlotSelection
  import opened SlotRuns
  import opened Gaps
  import opened GapEmission
  import opened SlotBooking
  import opened Limits
  import opened LimitRuns
  import opened JobPlanning
  import opened PlanSafety
  import opened PlanRebuild
  import opened SlotTable
  import opened NodeLoad
  import opened JobOrder

  ghost predicate AllAdmissible(js: seq<Job>, cfg: Config) {
    forall i :: 0 <= i < |js| ==> Admissible(js[i], cfg)
  }

  lemma {:induction false} PassedAdmissible(js: seq<Job>, now: int, cfg: Config)
    requires AllAdmissible(js, cfg)
    ensures AllAdmissible(PassedJobs(js, now), cfg)
  {
    PassedLength(js, now);
    forall p | 0 <= p < |js|
      ensures Admissible(PassedJobs(js, now)[p], cfg)
    {
      var i := PassedAt(js, now, p);
      PriorityIgnored(js[i], PassedJobs(js, now)[p], cfg);
    }
  }

  lemma {:induction false} PassedLength(js: seq<Job>, now: int)
    ensures |PassedJobs(js, now)| == |js|
  {
    var flags := Flags(js, now);
    PartsLength(Marked(js, flags), flags);
  }

  /**
   Plans all jobs of a cluster from the state of its nodes: 0 with a safe plan of
   all jobs, prioritised ones first, or 2 after dropping one of them.
   */
  method UpdateSched(jobs: PlanList<Job>, nodes: seq<Node>, cfg: Config, fit: (nat, nat) -> Fitness, now: int)
    returns (r: int, limits: PlanList<Limit>, gaps: PlanList<Gap>, ghost k: nat)
    requires jobs.Valid() && cfg.Valid() && ValidNodes(nodes) && now >= 0 && AllAdmissible(jobs.Values(), cfg)
    modifies jobs, jobs.items
    ensures jobs.Valid() && (r == 0 || r == 2) && AllAdmissible(jobs.Values(), cfg)
    ensures forall i :: 0 <= i < |jobs.items| ==> jobs.items[i] in old(jobs.items)
    ensures var plan := PassedJobs(old(jobs.Values()), now);
            if r == 0 then Finished(nodes, now, plan, jobs.Values(), gaps.Values(), limits.Values(), fit, cfg)
            else IsAborted(nodes, now, Aborted(plan, jobs.Values(), k), fit, cfg)
    ensures r == 0 ==> multiset(jobs.items) == multiset(old(jobs.items))
    ensures r == 2 ==> |jobs.items| == |old(jobs.items)| - 1
    ensures JobsKept(old(jobs.items), old(jobs.Values()), jobs.items)
    ensures r == 0 ==> PassedOn(old(jobs.items), old(jobs.Values()), jobs.items, PassedJobs(old(jobs.Values()), now), now)
  {
    hide FixedKept, SafeRequests, DistinctSlots, NodesHold, SafePlan, WellPlanned, Admissible, AllAdmissible, Replanned, SameRequest, SlotTimes, DownBlank, PassedJobs, Table, PlanList.Valid, Dropped,
         NoSlotsFor, OthersStay, RequestsKept, PassedOn, Delete;
    ghost var was, items := jobs.Values(), jobs.items;
    var slots := BeginCycle(jobs, nodes, cfg, now);
    ghost var plan, passed := jobs.Values(), jobs.items;
    AdmissibleAt(plan, cfg);
    r, limits, gaps, k := RebuildPlan(jobs, slots, cfg, fit, OutOfServiceNodes(nodes), now);
    if r == 0 {
      ReplannedAdmissible(plan, jobs.Values(), cfg);
      AllStay(items, was, passed, plan, now);
      ReplannedKeepsFixed(items, was, passed, plan, now, jobs.Values());
      SafeIfRequested(nodes, now, plan, jobs.Values(), fit, cfg);
    } else {
      DroppedAdmissible(plan, jobs.Values(), k, cfg);
      AdmissibleIs(jobs.Values(), cfg);
      DroppedIsQueued(plan, jobs.Values(), k);
      OthersThrough(items, was, passed, plan, now, k);
      DroppedKeepsFixed(items, was, passed, plan, now, jobs.items, jobs.Values(), k);
    }
    RequestsThrough(items, was, passed, plan, now);
  }

  lemma {:induction false} SafeIfRequested(nodes: seq<Node>, now: int, plan: seq<Job>, js: seq<Job>, fit: (nat, nat) -> Fitness, cfg: Config)
    requires ValidNodes(nodes) && now >= 0 && WellPlanned(Table(nodes, now), plan, js, fit, cfg)
    ensures SafeRequests(Table(nodes, now), js, fit) ==> DistinctSlots(js) && NodesHold(Table(nodes, now), js)
  {
    hide WellPlanned, SafeRequests, DistinctSlots, NodesHold, Table;
    if SafeRequests(Table(nodes, now), js, fit) {
      TableHasTimes(nodes, now);
      SafeRequestsHold(Table(nodes, now), plan, js, fit, cfg);
      SafeRequestsAreDistinct(Table(nodes, now), plan, js, fit, cfg);
    }
  }

  // ----- cycles that drop a job

  /** A cycle that drops job k of its plan, and the list that it leaves. */
  datatype Aborted = Aborted(plan: seq<Job>, left: seq<Job>, k: nat)

  /** The jobs in front of the dropped one have their best plans, and leave no slots for it. */
  ghost predicate IsAborted(nodes: seq<Node>, now: int, c: Aborted, fit: (nat, nat) -> Fitness, cfg: Config)
    requires ValidNodes(nodes)
  {
    Stopped(Table(nodes, now), c.plan, c.left, c.k, fit, cfg)
  }

  /** A job that was fixed to nodes is still fixed to these, unless it was dropped. */
  ghost predicate FixedKept(items: seq<Item<Job>>, was: seq<Job>, rest: seq<Item<Job>>)
    reads items
  {
    && |items| == |was|
    && forall i :: 0 <= i < |items| && items[i] in rest && None !in was[i].fixedNames ==> items[i].value.fixedNames == was[i].fixedNames
  }

  lemma {:induction false} ReplannedKeepsFixed(items: seq<Item<Job>>, was: seq<Job>, passed: seq<Item<Job>>, plan: seq<Job>, now: int, vals: seq<Job>)
    requires PassedOn(items, was, passed, plan, now) && |vals| == |plan|
    requires forall p :: 0 <= p < |plan| ==> Replanned(plan[p], vals[p])
    requires forall p :: 0 <= p < |passed| ==> passed[p].value == vals[p]
    ensures FixedKept(items, was, passed)
  {
    forall i | 0 <= i < |items| && items[i] in passed && None !in was[i].fixedNames
      ensures items[i].value.fixedNames == was[i].fixedNames
    {
      var p :| 0 <= p < |passed| && passed[p] == items[i];
      assert plan[p].fixedNames == was[i].fixedNames;
      assert Replanned(plan[p], vals[p]);
    }
  }

  lemma {:induction false} DroppedKeepsFixed(items: seq<Item<Job>>, was: seq<Job>, passed: seq<Item<Job>>, plan: seq<Job>, now: int,
                                             rest: seq<Item<Job>>, vals: seq<Job>, k: nat)
    requires PassedOn(items, was, passed, plan, now) && Dropped(plan, vals, k) && rest == Delete(passed, k) && |vals| == |rest|
    requires forall p :: 0 <= p < |rest| ==> rest[p].value == vals[p]
    ensures FixedKept(items, was, rest)
  {
    forall i | 0 <= i < |items| && items[i] in rest && None !in was[i].fixedNames
      ensures items[i].value.fixedNames == was[i].fixedNames
    {
      var q :| 0 <= q < |rest| && rest[q] == items[i];
      var p := if q < k then q else q + 1;
      assert passed[p] == items[i] && plan[p].fixedNames == was[i].fixedNames;
      if q < k {
        assert Replanned(plan[q], vals[q]);
      }
    }
  }

  lemma {:induction false} AdmissibleAt(js: seq<Job>, cfg: Config)
    requires AllAdmissible(js, cfg)
    ensures forall i :: 0 <= i < |js| ==> Admissible(js[i], cfg)
  {
  }

  lemma {:induction false} AdmissibleIs(js: seq<Job>, cfg: Config)
    requires forall i :: 0 <= i < |js| ==> Admissible(js[i], cfg)
    ensures AllAdmissible(js, cfg)
  {
  }

  /** Creates the slot table and lets prioritised jobs pass. */
  method BeginCycle(jobs: PlanList<Job>, nodes: seq<Node>, cfg: Config, now: int) returns (slots: array<Slot>)
    requires jobs.Valid() && ValidNodes(nodes) && now >= 0 && AllAdmissible(jobs.Values(), cfg)
    modifies jobs, jobs.items
    ensures jobs.Valid() && fresh(slots) && slots[..] == Table(nodes, now)
    ensures SlotTimes(slots[..]) && DownBlank(slots[..], OutOfServiceNodes(nodes))
    ensures jobs.Values() == PassedJobs(old(jobs.Values()), now) && AllAdmissible(jobs.Values(), cfg)
    ensures |jobs.items| == |old(jobs.items)| && forall i :: 0 <= i < |jobs.items| ==> jobs.items[i] in old(jobs.items)
    ensures PassedOn(old(jobs.items), old(jobs.Values()), jobs.items, jobs.Values(), now)
  {
    hide AllAdmissible, SlotTimes, DownBlank, PassedJobs, Table, PlanList.Valid, PassedOn, Flags, MarkedJob, Prioritised, FlaggedReversed, Unflagged;
    ghost var was, items := jobs.Values(), jobs.items;
    var runningCpus;
    slots, runningCpus := FirstFreeSlots(nodes, now);
    TableBlank(nodes, now);
    Prioritise(jobs, now);
    PassedAdmissible(was, now, cfg);
    PassedLength(was, now);
    PassOn(items, was, jobs.items, jobs.Values(), now);
  }

  lemma {:induction false} TableBlank(nodes: seq<Node>, now: int)
    requires ValidNodes(nodes) && now >= 0
    ensures SlotTimes(Table(nodes, now)) && DownBlank(Table(nodes, now), OutOfServiceNodes(nodes))
  {
    TableTimes(nodes, now);
  }

  /** The pass rearranges the items and marks their records. */
  ghost predicate PassedOn(items: seq<Item<Job>>, was: seq<Job>, passed: seq<Item<Job>>, plan: seq<Job>, now: int) {
    && |was| == |items| && |plan| == |passed| && multiset(passed) == multiset(items)
    && forall p :: 0 <= p < |passed| ==>
         forall i :: 0 <= i < |items| && items[i] == passed[p] ==> plan[p] == MarkedJob(was[i], Flags(was, now)[i])
  }

  lemma {:induction false} PassOn(items: seq<Item<Job>>, was: seq<Job>, passed: seq<Item<Job>>, plan: seq<Job>, now: int)
    requires |was| == |items| && |plan| == |passed| && multiset(passed) == multiset(items)
    requires forall i :: 0 <= i < |items| ==> items[i].value == MarkedJob(was[i], Flags(was, now)[i])
    requires forall p :: 0 <= p < |passed| ==> passed[p].value == plan[p]
    ensures PassedOn(items, was, passed, plan, now)
  {
  }

  /** Jobs that are not queued stay in the list. */
  ghost predicate OthersStay(items: seq<Item<Job>>, was: seq<Job>, rest: seq<Item<Job>>)
    requires |items| == |was|
  {
    forall i :: 0 <= i < |items| && was[i].state != Queued ==> items[i] in rest
  }

  /** The outcome of a cycle that drops no job. */
  ghost predicate Finished(nodes: seq<Node>, now: int, plan: seq<Job>, js: seq<Job>, gs: seq<Gap>, vs: seq<Limit>, fit: (nat, nat) -> Fitness, cfg: Config)
    requires ValidNodes(nodes)
  {
    && AllReplanned(plan, js) && cfg.Valid()
    && SafePlan(Table(nodes, now), js, gs, vs, cfg, OutOfServiceNodes(nodes), now)
    && WellPlanned(Table(nodes, now), plan, js, fit, cfg)
    && (SafeRequests(Table(nodes, now), js, fit) ==> DistinctSlots(js) && NodesHold(Table(nodes, now), js))
  }

  /** What a cycle does to the nodes a job is fixed to: queued jobs that were not fixed are afterwards, all others stay as they were. */
  ghost predicate NamesHeld(was: Job, job: Job) {
    && job.state == was.state && job.fixedBackup == was.fixedBackup
    && (None !in was.fixedNames || was.state != Queued ==> job.fixedNames == was.fixedNames)
    && (was.state == Queued ==> None !in job.fixedNames)
  }

  lemma {:induction false} PlannedIsFixed(slots0: seq<Slot>, was: Job, job: Job)
    requires Replanned(was, job) && (was.state == Queued ==> OwnSlots(slots0, job))
    ensures NamesHeld(was, job)
  {
    if was.state == Queued {
      var takes :| GivenSlots(slots0, job, takes);
      assert forall k :: 0 <= k < |takes| ==> FreePart(slots0, job, job.nodes[k], takes[k]);
      assert None !in job.nodes;
    }
  }

  lemma {:induction false} AllNamesHeld(slots0: seq<Slot>, items: seq<Item<Job>>, was: seq<Job>, rest: seq<Item<Job>>, plan: seq<Job>, vals: seq<Job>, now: int)
    requires PassedOn(items, was, rest, plan, now) && AllReplanned(plan, vals) && StartsFree(slots0, vals)
    requires |vals| == |rest| && forall p :: 0 <= p < |rest| ==> rest[p].value == vals[p]
    ensures forall i :: 0 <= i < |items| ==> NamesHeld(was[i], items[i].value)
  {
    hide OwnSlots, Replanned, NamesHeld;
    forall i | 0 <= i < |items|
      ensures NamesHeld(was[i], items[i].value)
    {
      assert items[i] in multiset(rest);
      var p :| 0 <= p < |rest| && rest[p] == items[i];
      assert Replanned(plan[p], vals[p]);
      StateStays(plan[p], vals[p]);
      PlannedIsFixed(slots0, plan[p], vals[p]);
      MarkHoldsNames(was[i], Flags(was, now)[i], vals[p]);
    }
  }

  lemma {:induction false} StateStays(was: Job, job: Job)
    requires Replanned(was, job)
    ensures job.state == was.state
  {
  }

  lemma {:induction false} MarkHoldsNames(was: Job, flag: bool, job: Job)
    requires NamesHeld(MarkedJob(was, flag), job)
    ensures NamesHeld(was, job)
  {
  }

  lemma {:induction false} NamesHeldTwice(a: Job, b: Job, c: Job)
    requires NamesHeld(a, b) && NamesHeld(b, c)
    ensures NamesHeld(a, c)
  {
  }

  lemma {:induction false} FinishedStartsFree(nodes: seq<Node>, now: int, plan: seq<Job>, js: seq<Job>, gs: seq<Gap>, vs: seq<Limit>,
                                              fit: (nat, nat) -> Fitness, cfg: Config)
    requires ValidNodes(nodes) && Finished(nodes, now, plan, js, gs, vs, fit, cfg)
    ensures AllReplanned(plan, js) && StartsFree(Table(nodes, now), js)
  {
    hide AllReplanned, StartsFree, Agrees, RefinesSum, WithinLimits, NoDoubleBooking, Timeline, GapSequence, Accounted, Table,
         WellPlanned, SafeRequests, NodesHold, DistinctSlots, Grown;
  }

  lemma {:induction false} FinishedHoldsNames(nodes: seq<Node>, now: int, items: seq<Item<Job>>, was: seq<Job>, rest: seq<Item<Job>>, vals: seq<Job>,
                                              gs: seq<Gap>, vs: seq<Limit>, fit: (nat, nat) -> Fitness, cfg: Config)
    requires ValidNodes(nodes) && PassedOn(items, was, rest, PassedJobs(was, now), now)
    requires Finished(nodes, now, PassedJobs(was, now), vals, gs, vs, fit, cfg)
    requires |vals| == |rest| && forall p :: 0 <= p < |rest| ==> rest[p].value == vals[p]
    ensures forall i :: 0 <= i < |items| ==> NamesHeld(was[i], items[i].value)
  {
    hide Finished, PassedOn, PassedJobs, AllReplanned, StartsFree, Table, NamesHeld;
    FinishedStartsFree(nodes, now, PassedJobs(was, now), vals, gs, vs, fit, cfg);
    AllNamesHeld(Table(nodes, now), items, was, rest, PassedJobs(was, now), vals, now);
  }

  /** What no cycle changes: all requests, the jobs that are not queued, and the nodes of jobs that are fixed and still in the list. */
  ghost predicate JobsKept(items: seq<Item<Job>>, was: seq<Job>, rest: seq<Item<Job>>)
    reads items
  {
    |items| == |was| && RequestsKept(items, was) && OthersStay(items, was, rest) && FixedKept(items, was, rest)
  }

  lemma {:induction false} AllStay(items: seq<Item<Job>>, was: seq<Job>, passed: seq<Item<Job>>, plan: seq<Job>, now: int)
    requires PassedOn(items, was, passed, plan, now)
    ensures OthersStay(items, was, passed) && multiset(passed) == multiset(items)
  {
    forall i | 0 <= i < |items|
      ensures items[i] in passed
    {
      assert items[i] in multiset(passed);
    }
  }

  lemma {:induction false} DroppedIsQueued(was: seq<Job>, js: seq<Job>, k: nat)
    requires Dropped(was, js, k)
    ensures k < |was| && was[k].state == Queued && |js| == |was| - 1
  {
  }

  lemma {:induction false} OthersThrough(items: seq<Item<Job>>, was: seq<Job>, passed: seq<Item<Job>>, plan: seq<Job>, now: int, k: nat)
    requires PassedOn(items, was, passed, plan, now)
    requires k < |plan| && plan[k].state == Queued
    ensures OthersStay(items, was, Delete(passed, k))
    ensures forall i :: 0 <= i < |Delete(passed, k)| ==> Delete(passed, k)[i] in passed
  {
    forall i | 0 <= i < |items| && was[i].state != Queued
      ensures items[i] in Delete(passed, k)
    {
      assert items[i] in multiset(passed);
      var p :| 0 <= p < |passed| && passed[p] == items[i];
      assert p != k;
      assert Delete(passed, k)[if p < k then p else p - 1] == items[i];
    }
  }

  /** What one more cycle does to the jobs of the list at the outset. */
  lemma {:induction false} OneMoreCycle(items: seq<Item<Job>>, was: seq<Job>, mid: seq<Job>, cur: seq<Item<Job>>, vals: seq<Job>, rest: seq<Item<Job>>)
    requires |was| == |items| == |mid| && |cur| == |vals|
    requires forall i :: 0 <= i < |items| ==> SameRequest(was[i], mid[i])
    requires forall i, p :: 0 <= i < |items| && 0 <= p < |cur| && items[i] == cur[p] ==> mid[i] == vals[p]
    requires forall i :: 0 <= i < |items| && items[i] !in cur ==> items[i].value == mid[i]
    requires RequestsKept(cur, vals) && OthersStay(items, was, cur) && OthersStay(cur, vals, rest)
    ensures RequestsKept(items, was) && OthersStay(items, was, rest)
  {
    forall i | 0 <= i < |items|
      ensures SameRequest(was[i], items[i].value)
      ensures was[i].state != Queued ==> items[i] in rest
    {
      assert SameRequest(was[i], mid[i]);
      if items[i] in cur {
        var p :| 0 <= p < |cur| && cur[p] == items[i];
        assert SameRequest(vals[p], cur[p].value);
      }
    }
  }

  /** The requests of jobs survive the pass and the planning, wherever their items stand. */
  lemma {:induction false} RequestsThrough(items: seq<Item<Job>>, was: seq<Job>, passed: seq<Item<Job>>, plan: seq<Job>, now: int)
    requires PassedOn(items, was, passed, plan, now)
    requires RequestsKept(passed, plan)
    ensures RequestsKept(items, was)
  {
    forall i | 0 <= i < |items|
      ensures SameRequest(was[i], items[i].value)
    {
      assert items[i] in multiset(passed);
      var p :| 0 <= p < |passed| && passed[p] == items[i];
      assert SameRequest(plan[p], passed[p].value);
    }
  }

  lemma {:induction false} ReplannedAdmissible(was: seq<Job>, js: seq<Job>, cfg: Config)
    requires |js| == |was| && AllAdmissible(was, cfg) && forall i :: 0 <= i < |js| ==> Replanned(was[i], js[i])
    ensures AllAdmissible(js, cfg)
  {
  }

  lemma {:induction false} RequestsSame(items: seq<Item<Job>>, was: seq<Job>)
    requires |was| == |items| && forall i :: 0 <= i < |items| ==> items[i].value == was[i]
    ensures RequestsKept(items, was) && OthersStay(items, was, items)
  {
  }

  lemma {:induction false} RequestsNow(items: seq<Item<Job>>, was: seq<Job>, mid: seq<Job>)
    requires |was| == |items| == |mid| && RequestsKept(items, was) && forall i :: 0 <= i < |items| ==> mid[i] == items[i].value
    ensures forall i :: 0 <= i < |items| ==> SameRequest(was[i], mid[i])
  {
  }

  /** The fitness of slots in one attempt. */
  function FitOf(fit: (nat, nat, nat) -> Fitness, attempt: nat): (nat, nat) -> Fitness {
    (turn, slot) => fit(attempt, turn, slot)
  }

  /** The list from which cycle i starts. */
  function ListAt(js: seq<Job>, cycles: seq<Aborted>, i: nat): seq<Job>
    requires i <= |cycles|
  {
    if i == 0 then js else cycles[i - 1].left
  }

  /** One aborted cycle after the other, each from what the one before has left. */
  ghost predicate Chain(nodes: seq<Node>, now: int, js: seq<Job>, cycles: seq<Aborted>, fit: (nat, nat, nat) -> Fitness, cfg: Config)
    requires ValidNodes(nodes)
  {
    forall i :: 0 <= i < |cycles| ==>
      cycles[i].plan == PassedJobs(ListAt(js, cycles, i), now) && IsAborted(nodes, now, cycles[i], FitOf(fit, i), cfg)
  }

  lemma {:induction false} ChainNext(nodes: seq<Node>, now: int, js: seq<Job>, cycles: seq<Aborted>, c: Aborted, fit: (nat, nat, nat) -> Fitness, cfg: Config)
    requires ValidNodes(nodes) && Chain(nodes, now, js, cycles, fit, cfg)
    requires c.plan == PassedJobs(ListAt(js, cycles, |cycles|), now) && IsAborted(nodes, now, c, FitOf(fit, |cycles|), cfg)
    ensures Chain(nodes, now, js, cycles + [c], fit, cfg)
  {
    hide IsAborted, PassedJobs, FitOf;
    var all := cycles + [c];
    forall i | 0 <= i < |all|
      ensures all[i].plan == PassedJobs(ListAt(js, all, i), now) && IsAborted(nodes, now, all[i], FitOf(fit, i), cfg)
    {
      assert i > 0 ==> all[i - 1] == cycles[i - 1];
      assert i < |cycles| ==> all[i] == cycles[i];
    }
  }

  /** The records from which the last cycle plans name the nodes that jobs were fixed to at the outset. */
  ghost predicate NamesKept(items: seq<Item<Job>>, was: seq<Job>, rest: seq<Item<Job>>, passed: seq<Job>) {
    && |items| == |was| && |rest| == |passed|
    && forall i, p :: 0 <= i < |items| && 0 <= p < |rest| && rest[p] == items[i] && None !in was[i].fixedNames ==>
         passed[p].fixedNames == was[i].fixedNames
  }

  lemma {:induction false} NamesThrough(items: seq<Item<Job>>, was: seq<Job>, mid: seq<Job>, cur: seq<Item<Job>>, vals: seq<Job>,
                                        rest: seq<Item<Job>>, passed: seq<Job>, now: int)
    requires Midway(items, was, cur, vals, mid) && PassedOn(cur, vals, rest, passed, now)
    ensures NamesKept(items, was, rest, passed)
  {
    forall i, p | 0 <= i < |items| && 0 <= p < |rest| && rest[p] == items[i] && None !in was[i].fixedNames
      ensures passed[p].fixedNames == was[i].fixedNames
    {
      assert rest[p] in multiset(rest);
      assert items[i] in multiset(cur);
      var q :| 0 <= q < |cur| && cur[q] == items[i];
      assert passed[p] == MarkedJob(vals[q], Flags(vals, now)[q]);
    }
  }

  /** What one more cycle does to fixed jobs. */
  lemma {:induction false} FixedThrough(items: seq<Item<Job>>, was: seq<Job>, mid: seq<Job>, cur: seq<Item<Job>>, vals: seq<Job>, rest: seq<Item<Job>>)
    requires |was| == |items| == |mid| && |cur| == |vals| && (forall p :: 0 <= p < |rest| ==> rest[p] in cur)
    requires forall i :: 0 <= i < |items| && items[i] in cur && None !in was[i].fixedNames ==> mid[i].fixedNames == was[i].fixedNames
    requires forall i, p :: 0 <= i < |items| && 0 <= p < |cur| && items[i] == cur[p] ==> mid[i] == vals[p]
    requires FixedKept(cur, vals, rest)
    ensures FixedKept(items, was, rest)
  {
    forall i | 0 <= i < |items| && items[i] in rest && None !in was[i].fixedNames
      ensures items[i].value.fixedNames == was[i].fixedNames
    {
      assert items[i] in cur;
      var p :| 0 <= p < |cur| && cur[p] == items[i];
    }
  }

  lemma {:induction false} FixedNow(items: seq<Item<Job>>, was: seq<Job>, cur: seq<Item<Job>>, mid: seq<Job>)
    requires FixedKept(items, was, cur) && |mid| == |items| && forall i :: 0 <= i < |items| ==> mid[i] == items[i].value
    ensures forall i :: 0 <= i < |items| && items[i] in cur && None !in was[i].fixedNames ==> mid[i].fixedNames == was[i].fixedNames
  {
  }

  lemma {:induction false} FixedBegins(items: seq<Item<Job>>, was: seq<Job>)
    requires |was| == |items| && forall i :: 0 <= i < |items| ==> items[i].value == was[i]
    ensures FixedKept(items, was, items)
  {
  }

  /**
   Updates the plan until no job is dropped any more, which must happen since each
   one dropped is gone. The cycles that dropped one follow each other, and the last
   cycle starts from the jobs in passed.
   */
  method UpdateUntilPlanned(jobs: PlanList<Job>, nodes: seq<Node>, cfg: Config, fit: (nat, nat, nat) -> Fitness, now: int)
    returns (limits: PlanList<Limit>, gaps: PlanList<Gap>, ghost cycles: seq<Aborted>, ghost passed: seq<Job>)
    requires jobs.Valid() && cfg.Valid() && ValidNodes(nodes) && now >= 0 && AllAdmissible(jobs.Values(), cfg)
    modifies jobs, jobs.items
    ensures jobs.Valid() && forall i :: 0 <= i < |jobs.items| ==> jobs.items[i] in old(jobs.items)
    ensures JobsKept(old(jobs.items), old(jobs.Values()), jobs.items)
    ensures NamesKept(old(jobs.items), old(jobs.Values()), jobs.items, passed)
    ensures Chain(nodes, now, old(jobs.Values()), cycles, fit, cfg)
    ensures passed == PassedJobs(ListAt(old(jobs.Values()), cycles, |cycles|), now)
    ensures Finished(nodes, now, passed, jobs.Values(), gaps.Values(), limits.Values(), FitOf(fit, |cycles|), cfg)
  {
    hide Chain, Finished, NamesKept, JobsKept, AllAdmissible, PassedJobs, FitOf, PlanList.Valid;
    var attempt: nat := 0;
    var r := 2;
    limits := new PlanList<Limit>();
    gaps := new PlanList<Gap>();
    ghost var items, was := jobs.items, jobs.Values();
    cycles, passed := [], [];
    NothingChanged(items, was);
    ChainBegins(nodes, now, was, fit, cfg);
    while r == 2
      invariant jobs.Valid() && (r == 0 || r == 2) && AllAdmissible(jobs.Values(), cfg)
      invariant forall i :: 0 <= i < |jobs.items| ==> jobs.items[i] in old(jobs.items)
      invariant JobsKept(items, was, jobs.items) && Chain(nodes, now, was, cycles, fit, cfg)
      invariant r == 2 ==> attempt == |cycles| && jobs.Values() == ListAt(was, cycles, |cycles|)
      invariant r == 0 ==> NamesKept(items, was, jobs.items, passed) && passed == PassedJobs(ListAt(was, cycles, |cycles|), now)
      invariant r == 0 ==> Finished(nodes, now, passed, jobs.Values(), gaps.Values(), limits.Values(), FitOf(fit, |cycles|), cfg)
      decreases |jobs.items|, r
    {
      r, limits, gaps, cycles, passed := UpdateOnce(jobs, nodes, cfg, fit, attempt, now, items, was, cycles);
      attempt := attempt + 1;
    }
  }

  /** One more cycle of UpdateUntilPlanned, which begins with the jobs in items. */
  method UpdateOnce(jobs: PlanList<Job>, nodes: seq<Node>, cfg: Config, fit: (nat, nat, nat) -> Fitness, attempt: nat, now: int,
                    ghost items: seq<Item<Job>>, ghost was: seq<Job>, ghost before: seq<Aborted>)
    returns (r: int, limits: PlanList<Limit>, gaps: PlanList<Gap>, ghost cycles: seq<Aborted>, ghost passed: seq<Job>)
    requires jobs.Valid() && cfg.Valid() && ValidNodes(nodes) && now >= 0 && AllAdmissible(jobs.Values(), cfg)
    requires |items| == |was| && JobsKept(items, was, jobs.items) && Chain(nodes, now, was, before, fit, cfg)
    requires attempt == |before| && jobs.Values() == ListAt(was, before, |before|)
    modifies jobs, jobs.items
    ensures jobs.Valid() && (r == 0 || r == 2) && AllAdmissible(jobs.Values(), cfg)
    ensures forall i :: 0 <= i < |jobs.items| ==> jobs.items[i] in old(jobs.items)
    ensures JobsKept(items, was, jobs.items) && Chain(nodes, now, was, cycles, fit, cfg)
    ensures r == 2 ==> |jobs.items| < |old(jobs.items)| && |cycles| == attempt + 1 && jobs.Values() == ListAt(was, cycles, |cycles|)
    ensures r == 0 ==> |jobs.items| == |old(jobs.items)| && NamesKept(items, was, jobs.items, passed)
    ensures r == 0 ==> passed == PassedJobs(ListAt(was, cycles, |cycles|), now)
    ensures r == 0 ==> Finished(nodes, now, passed, jobs.Values(), gaps.Values(), limits.Values(), FitOf(fit, |cycles|), cfg)
  {
    hide IsAborted, Chain, Finished, PassedOn, NamesKept, FixedKept, OthersStay, RequestsKept, SameRequest, Admissible, AllAdmissible, PassedJobs,
         Table, FitOf, JobsKept, Midway, PlanList.Valid;
    ghost var k;
    PassedLength(jobs.Values(), now);
    ghost var cur, vals, mid := jobs.items, jobs.Values(), CurrentRecords(items);
    BetweenCycles(items, was, cur, vals, mid);
    passed := PassedJobs(vals, now);
    r, limits, gaps, k := UpdateSched(jobs, nodes, cfg, FitOf(fit, attempt), now);
    CycleKeeps(items, was, mid, cur, vals, jobs.items);
    cycles := before;
    if r == 0 {
      NamesThrough(items, was, mid, cur, vals, jobs.items, passed, now);
    } else {
      ChainNext(nodes, now, was, before, Aborted(passed, jobs.Values(), k), fit, cfg);
      cycles := before + [Aborted(passed, jobs.Values(), k)];
    }
  }

  /** The jobs of the list at the outset and those still in it, between two cycles. */
  ghost predicate Midway(items: seq<Item<Job>>, was: seq<Job>, cur: seq<Item<Job>>, vals: seq<Job>, mid: seq<Job>) {
    && |was| == |items| == |mid| && |cur| == |vals| && (forall i :: 0 <= i < |items| ==> SameRequest(was[i], mid[i]))
    && (forall i, p :: 0 <= i < |items| && 0 <= p < |cur| && items[i] == cur[p] ==> mid[i] == vals[p])
    && (forall i :: 0 <= i < |items| && items[i] in cur && None !in was[i].fixedNames ==> mid[i].fixedNames == was[i].fixedNames)
    && OthersStay(items, was, cur)
  }

  lemma {:induction false} BetweenCycles(items: seq<Item<Job>>, was: seq<Job>, cur: seq<Item<Job>>, vals: seq<Job>, mid: seq<Job>)
    requires |was| == |items| == |mid| && |cur| == |vals| && JobsKept(items, was, cur)
    requires forall i :: 0 <= i < |items| ==> mid[i] == items[i].value
    requires forall p :: 0 <= p < |cur| ==> vals[p] == cur[p].value
    ensures Midway(items, was, cur, vals, mid)
  {
    hide SameRequest;
    RequestsNow(items, was, mid);
    FixedNow(items, was, cur, mid);
  }

  lemma {:induction false} CycleKeeps(items: seq<Item<Job>>, was: seq<Job>, mid: seq<Job>, cur: seq<Item<Job>>, vals: seq<Job>, rest: seq<Item<Job>>)
    requires Midway(items, was, cur, vals, mid) && forall i :: 0 <= i < |items| && items[i] !in cur ==> items[i].value == mid[i]
    requires JobsKept(cur, vals, rest) && forall p :: 0 <= p < |rest| ==> rest[p] in cur
    ensures JobsKept(items, was, rest)
  {
    hide SameRequest, RequestsKept, OthersStay, FixedKept;
    OneMoreCycle(items, was, mid, cur, vals, rest);
    FixedThrough(items, was, mid, cur, vals, rest);
  }

  lemma {:induction false} NothingChanged(items: seq<Item<Job>>, was: seq<Job>)
    requires |was| == |items| && forall i :: 0 <= i < |items| ==> items[i].value == was[i]
    ensures JobsKept(items, was, items)
  {
    RequestsSame(items, was);
    FixedBegins(items, was);
  }

  lemma {:induction false} ChainBegins(nodes: seq<Node>, now: int, js: seq<Job>, fit: (nat, nat, nat) -> Fitness, cfg: Config)
    requires ValidNodes(nodes)
    ensures Chain(nodes, now, js, [], fit, cfg)
  {
  }

  /**
   What a safe plan means in terms of the nodes: jobs start now or later, all their
   nodes are live ones, and each of these has given slots of its own.
   */
  lemma {:induction false} PlannedOnLiveNodes(nodes: seq<Node>, now: int, js: seq<Job>, gs: seq<Gap>, vs: seq<Limit>, cfg: Config, a: nat)
    requires ValidNodes(nodes) && now >= 0 && cfg.Valid()
    requires SafePlan(Table(nodes, now), js, gs, vs, cfg, OutOfServiceNodes(nodes), now)
    requires a < |js| && js[a].state == Queued
    ensures now <= js[a].startTime < js[a].completionTime == js[a].startTime + js[a].estimatedProcessing
    ensures |js[a].cpuIndexes| == js[a].usage && (KeepsSlots(js[a]) ==> Distinct(js[a].cpuIndexes))
    ensures |js[a].nodes| == js[a].reqNumNodes
    ensures forall k :: 0 <= k < |js[a].nodes| ==>
              && js[a].nodes[k].Some? && 0 <= js[a].nodes[k].value < |nodes|
              && var n := nodes[js[a].nodes[k].value];
                 !n.down && !n.offline && !n.notUsable && !n.unknown && !n.reserved && !n.busy
  {
    hide Agrees, RefinesSum, WithinLimits, NoDoubleBooking, Timeline, GapSequence, Accounted, Table;
    var job, table := js[a], Table(nodes, now);
    TableTimes(nodes, now);
    assert OwnSlots(table, job);
    assert job.cpuIndexes[0] in job.cpuIndexes;
    var takes :| GivenSlots(table, job, takes);
    forall k | 0 <= k < |job.nodes|
      ensures job.nodes[k].Some? && 0 <= job.nodes[k].value < |nodes| && !nodes[job.nodes[k].value].Blank()
    {
      assert FreePart(table, job, job.nodes[k], takes[k]);
      NoSlots(takes[k]);
      var x :| x in takes[k];
    }
  }

  /** No job runs on the core from the instant on, as far as its walltime tells. */
  ghost predicate IdleCore(n: Node, c: nat, t: int) {
    && n.Valid() && c < n.cores
    && (n.jobsOnCpu == None || n.jobsOnCpu.value[c] == None
        || n.jobsOnCpu.value[c].value.startTime + n.jobsOnCpu.value[c].value.walltime <= t)
  }

  /** The cores that a planned job is given are idle when it starts. */
  lemma {:induction false} PlannedOnIdleCores(nodes: seq<Node>, now: int, js: seq<Job>, gs: seq<Gap>, vs: seq<Limit>, cfg: Config, a: nat)
    requires ValidNodes(nodes) && now >= 0 && cfg.Valid()
    requires SafePlan(Table(nodes, now), js, gs, vs, cfg, OutOfServiceNodes(nodes), now)
    requires a < |js| && js[a].state == Queued
    ensures exists takes :: GivenSlots(Table(nodes, now), js[a], takes) &&
              forall k, x :: 0 <= k < |takes| && x in takes[k] ==>
                exists i: nat, c: nat :: i < |nodes| && js[a].nodes[k] == Some(i) && c < nodes[i].cores
                                         && x == CorePosition(nodes, i, c) && IdleCore(nodes[i], c, js[a].startTime)
  {
    hide Agrees, RefinesSum, WithinLimits, NoDoubleBooking, Timeline, GapSequence, Accounted, Table;
    var job, table := js[a], Table(nodes, now);
    assert OwnSlots(table, job);
    PlannedOnLiveNodes(nodes, now, js, gs, vs, cfg, a);
    var takes :| GivenSlots(table, job, takes);
    forall k, x | 0 <= k < |takes| && x in takes[k]
      ensures exists i: nat, c: nat :: i < |nodes| && job.nodes[k] == Some(i) && c < nodes[i].cores
                                       && x == CorePosition(nodes, i, c) && IdleCore(nodes[i], c, job.startTime)
    {
      assert FreePart(table, job, job.nodes[k], takes[k]);
      var i, c := SlotIsCore(nodes, now, x);
      CoresOfTable(nodes, now, i, c, job.startTime);
    }
  }

  lemma {:induction false} NoSlots(take: set<int>)
    ensures (forall x :: x !in take) ==> |take| == 0
  {
    if forall x :: x !in take {
      assert take == {};
    }
  }

  /** When no node is blank for another reason than being down, offline or not usable, the plan takes exactly what is in service. */
  lemma {:induction false} PlanTakesWhatIsThere(nodes: seq<Node>, now: int, js: seq<Job>, gs: seq<Gap>, vs: seq<Limit>, cfg: Config, t: int, m: Measure)
    requires ValidNodes(nodes) && now >= 0 && cfg.Valid() && t >= 0
    requires SafePlan(Table(nodes, now), js, gs, vs, cfg, OutOfServiceNodes(nodes), now) && DistinctSlots(js)
    requires forall i :: 0 <= i < |nodes| && nodes[i].cores > 0 && (nodes[i].unknown || nodes[i].reserved || nodes[i].busy) ==>
               nodes[i].down || nodes[i].offline || nodes[i].notUsable
    ensures var slots := Table(nodes, now);
            var all := Profile(gs, t, m) + Held(slots, js, t, m) + Waiting(slots, js, t, m) + BusyAt(slots, t, m);
            all <= InServiceCount(slots, m) && (t < GapsEnd(slots, js, now) ==> all == InServiceCount(slots, m))
  {
    hide Accounted, StartsFree, NoDoubleBooking, GapSequence, Agrees, RefinesSum, WithinLimits, Timeline, Grown, TableAfter;
    TableInServiceIff(nodes, now);
    NoneOversold(Table(nodes, now), js, gs, OutOfServiceNodes(nodes), now, t, m);
  }

  /** For safe requests that holds of what the jobs put on each node, too. */
  lemma {:induction false} NodesTakeWhatIsThere(nodes: seq<Node>, now: int, was: seq<Job>, js: seq<Job>, gs: seq<Gap>, vs: seq<Limit>,
                                                fit: (nat, nat) -> Fitness, cfg: Config, t: int, node: int)
    requires ValidNodes(nodes) && now >= 0 && cfg.Valid() && t >= 0
    requires SafePlan(Table(nodes, now), js, gs, vs, cfg, OutOfServiceNodes(nodes), now)
    requires WellPlanned(Table(nodes, now), was, js, fit, cfg) && SafeRequests(Table(nodes, now), js, fit)
    requires forall i :: 0 <= i < |nodes| && nodes[i].cores > 0 && (nodes[i].unknown || nodes[i].reserved || nodes[i].busy) ==>
               nodes[i].down || nodes[i].offline || nodes[i].notUsable
    ensures var slots, m := Table(nodes, now), OnNode(node);
            var all := Profile(gs, t, m) + Load(js, t, node) + Waiting(slots, js, t, m) + BusyAt(slots, t, m);
            all <= InServiceCount(slots, m) && (t < GapsEnd(slots, js, now) ==> all == InServiceCount(slots, m))
  {
    hide SafePlan, WellPlanned, SafeRequests, DistinctSlots, Table, Load;
    TableHasTimes(nodes, now);
    SafeRequestsAreDistinct(Table(nodes, now), was, js, fit, cfg);
    HeldIsLoad(Table(nodes, now), was, js, fit, cfg, t, node);
    PlanTakesWhatIsThere(nodes, now, js, gs, vs, cfg, t, OnNode(node));
  }

  lemma {:induction false} TableFrom(slots0: seq<Slot>, js: seq<Job>, now: int)
    requires forall x :: 0 <= x < |slots0| ==> slots0[x].time == -1 || slots0[x].time >= now
    requires forall a :: 0 <= a < |js| && js[a].state == Queued ==> js[a].completionTime >= now
    ensures forall x :: 0 <= x < |slots0| ==> TableAfter(slots0, js)[x].time == -1 || TableAfter(slots0, js)[x].time >= now
  {
    if js != [] {
      var l := |js| - 1;
      TableFrom(slots0, js[..l], now);
      if js[l].state == Queued && Indexes(slots0, js[l].cpuIndexes) {
        FreeAllIs(TableAfter(slots0, js[..l]), js[l].cpuIndexes, js[l].completionTime);
      }
    }
  }

  /** A job with its best plan begins at the least start from some instant on, not before now. */
  lemma {:induction false} BestIsTimely(slots0: seq<Slot>, names: seq<Option<int>>, before: seq<Job>, job: Job, fit: seq<Fitness>, cfg: Config, now: int)
    requires BestPlan(slots0, names, before, job, fit, cfg) && job.state == Queued
    requires forall x :: 0 <= x < |slots0| ==> TableAfter(slots0, before)[x].time == -1 || TableAfter(slots0, before)[x].time >= now
    ensures Timely(before, job, cfg, now)
  {
    hide TableAfter, FirstMarks, LeastFit, TakenBy, RunsTo, LeastUnblocked, WalltimeClass;
    var table, l := TableAfter(slots0, before), |job.cpuIndexes| - 1;
    FirstMarksLive(names, job.reqPpn, table, fit);
    assert IsFresh(FirstMarks(names, job.reqPpn, table, fit)[job.cpuIndexes[l]]);
    assert now <= table[job.cpuIndexes[l]].time;
  }

  /** A finished plan is a run at that instant, as far as limits are concerned. */
  lemma {:induction false} PlanIsRun(nodes: seq<Node>, now: int, was: seq<Job>, js: seq<Job>, gs: seq<Gap>, vs: seq<Limit>,
                                     fit: (nat, nat) -> Fitness, cfg: Config)
    requires ValidNodes(nodes) && now >= 0 && cfg.Valid() && WellPlanned(Table(nodes, now), was, js, fit, cfg)
    requires SafePlan(Table(nodes, now), js, gs, vs, cfg, OutOfServiceNodes(nodes), now)
    requires forall a :: 0 <= a < |js| && js[a].state == Running ==> js[a].startTime <= now < js[a].completionTime
    ensures RunAt(js, cfg, now)
  {
    hide Agrees, RefinesSum, NoDoubleBooking, Timeline, GapSequence, Accounted, StartsFree, Grown, Table, BestPlan, Timely, LimitRun,
         KeepsRoom, QueuedWithinCap, AllWithinCap, TableAfter, FitnessRow;
    var slots0 := Table(nodes, now);
    TableNotBefore(nodes, now);
    forall a | 0 <= a < |js|
      ensures Timely(js[..a], js[a], cfg, now)
    {
      if js[a].state == Queued {
        forall b | 0 <= b < a && js[b].state == Queued
          ensures js[b].completionTime >= now
        {
          PlannedOnLiveNodes(nodes, now, js, gs, vs, cfg, b);
        }
        TableFrom(slots0, js[..a], now);
        BestIsTimely(slots0, was[a].fixedNames, js[..a], js[a], FitnessRow(fit, a, |slots0|), cfg, now);
      } else {
        OtherIsTimely(js[..a], js[a], cfg, now);
      }
    }
  }

  lemma {:induction false} TableNotBefore(nodes: seq<Node>, now: int)
    requires ValidNodes(nodes) && now >= 0
    ensures forall x :: 0 <= x < |Table(nodes, now)| ==> Table(nodes, now)[x].time == -1 || Table(nodes, now)[x].time >= now
  {
    TableTimes(nodes, now);
  }

  lemma {:induction false} OtherIsTimely(js: seq<Job>, job: Job, cfg: Config, now: int)
    requires cfg.Valid() && job.state != Queued && (job.state == Running ==> job.startTime <= now < job.completionTime)
    ensures Timely(js, job, cfg, now)
  {
  }
}
