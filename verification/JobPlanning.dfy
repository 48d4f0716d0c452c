/**
 Planning one queued job (update_job in plan_operations.cpp), for jobs that do
 not ask for whole nodes.
 */
module JobPlanning {
  import opened PlanLists
  import opened PlanJobs
  import opened SlotSelection
  import opened SlotRuns
  import opened Gaps
  import opened GapEmission
  import opened SlotBooking
  import opened Limits

  /**
   What the checks of memory, scratch, GPUs, walltime bounds and planned downtime
   say about a slot and a job: 0, it fits; -4, not until a later slot is free, too;
   otherwise, it does not fit.
   */
  type Fitness = m: int | m == 0 || m == -3 || m == -4 || m == -8 || m == -9

  /** The number of cores of a node: the table lists all of them. */
  function CoresOf(slots: seq<Slot>, node: int): nat {
    if slots == [] then 0
    else CoresOf(slots[..|slots| - 1], node) + if slots[|slots| - 1].node == node then 1 else 0
  }

  /** The first mark of a slot. */
  function FirstMark(names: seq<Option<int>>, ppn: int, cores: nat, s: Slot, fit: Fitness): int {
    if s.time == -1 then -1
    else if fit == -8 || fit == -9 then fit
    else if None !in names && Some(s.node) !in names then PROHIBITED
    else if ppn > cores then -2
    else fit
  }

  function FirstMarks(names: seq<Option<int>>, ppn: int, slots: seq<Slot>, fit: seq<Fitness>): (marks: seq<int>)
    requires |fit| == |slots|
    ensures |marks| == |slots|
  {
    seq(|slots|, i requires 0 <= i < |slots| => FirstMark(names, ppn, CoresOf(slots, slots[i].node), slots[i], fit[i]))
  }

  /** Marks every slot; what may be picked later is in service, and on a node with enough cores. */
  method InitAvailability(job: Job, slots: seq<Slot>, fit: seq<Fitness>) returns (avail: array<int>)
    requires |fit| == |slots|
    ensures fresh(avail) && avail[..] == FirstMarks(job.fixedNames, job.reqPpn, slots, fit)
    ensures InitialMarks(avail[..])
    ensures None !in job.fixedNames ==> Confined(slots, avail[..], multiset(job.fixedNames))
    ensures forall i :: 0 <= i < |slots| ==>
              (avail[i] == 0 || avail[i] == -4 <==>
                && slots[i].time != -1 && (fit[i] == 0 || fit[i] == -4) && job.reqPpn <= CoresOf(slots, slots[i].node)
                && (None in job.fixedNames || Some(slots[i].node) in job.fixedNames))
    ensures forall i :: 0 <= i < |slots| && (avail[i] == 0 || avail[i] == -4) ==> avail[i] == fit[i]
  {
    avail := new int[|slots|](_ => 0);
    for i := 0 to |slots|
      invariant forall j :: 0 <= j < i ==>
                  avail[j] == FirstMark(job.fixedNames, job.reqPpn, CoresOf(slots, slots[j].node), slots[j], fit[j])
    {
      if slots[i].time == -1 {
        avail[i] := -1;
        continue;
      }
      if fit[i] == -8 || fit[i] == -9 {
        avail[i] := fit[i];
        continue;
      }
      if None !in job.fixedNames && Some(slots[i].node) !in job.fixedNames {
        avail[i] := PROHIBITED;
        continue;
      }
      if job.reqPpn > CoresOf(slots, slots[i].node) {
        avail[i] := -2;
        continue;
      }
      avail[i] := fit[i];
    }
    assert avail[..] == FirstMarks(job.fixedNames, job.reqPpn, slots, fit);
  }

  /** A request that the planner can handle: whole nodes' worth of CPUs, and a walltime that belongs to a class. */
  ghost predicate Plannable(job: Job, cfg: Config) {
    && job.reqPpn >= 1 && job.reqNumNodes >= 1 && job.usage == Base(job.reqNumNodes, job.reqPpn)
    && |job.fixedNames| == job.reqNumNodes
    && job.estimatedProcessing > 0
    && WalltimeClass(cfg.thresholds, job.estimatedProcessing) < |cfg.thresholds|
  }

  /** What the job record tells about the selection. */
  function SelectionOf(job: Job, start: int): Selection {
    Selection(start, job.nodes, job.latestCpus, job.cpuIndexes)
  }

  /**
   The plan of one job: the selection of its slots that the loop ends with, the delay that the limits
   demand from the instant when the latest slot is free, the gaps in front of it,
   and the slot table in which its slots are taken until it completes.
   */
  ghost predicate Planned(slots: seq<Slot>, slots': seq<Slot>, was: Job, job: Job, gs: seq<Gap>,
                          vs: seq<Limit>, cfg: Config, marks: seq<int>)
    requires |marks| == |slots| && cfg.Valid()
    requires WalltimeClass(cfg.thresholds, was.estimatedProcessing) < |cfg.thresholds|
  {
    && was.reqPpn >= 1 && |job.cpuIndexes| == was.usage > 0 && UsableSlots(slots, marks, job.cpuIndexes)
    && job == was.(startTime := job.startTime, completionTime := job.completionTime, cpuIndexes := job.cpuIndexes,
                   nodes := job.nodes, latestCpus := job.latestCpus, fixedNames := job.fixedNames)
    && |job.fixedNames| == was.reqNumNodes
    && job.fixedNames == (if None in was.fixedNames then job.nodes else was.fixedNames)
    && job.completionTime == job.startTime + was.estimatedProcessing
    && var latest := slots[job.cpuIndexes[was.usage - 1]].time;
       && Selected(slots, marks, was.reqPpn, was.fixedNames, SelectionOf(job, latest))
       && RunsTo(slots, marks, was.reqPpn, was.fixedNames, SelectionOf(job, latest))
       && EarliestStart(vs, latest, job.startTime, RequestOf(was, cfg), cfg)
       && Emitted(gs, Chosen(slots, job.cpuIndexes), latest)
       && Freed(slots, slots', job.cpuIndexes, job.completionTime)
  }

  /** No instant has the slots of the job. */
  ghost predicate Hopeless(slots: seq<Slot>, job: Job, fit: seq<Fitness>)
    requires |fit| == |slots|
  {
    job.reqPpn >= 1 &&
    forall t :: !CanStart(slots, FirstMarks(job.fixedNames, job.reqPpn, slots, fit), job.reqPpn, job.fixedNames, t)
  }

  /** The parts of a job that make up its request, and the backup of its fixed nodes, stay as they are. */
  ghost predicate SameRequest(was: Job, job: Job) {
    job == was.(priority := job.priority, startTime := job.startTime, completionTime := job.completionTime,
                cpuIndexes := job.cpuIndexes, nodes := job.nodes, latestCpus := job.latestCpus, fixedNames := job.fixedNames)
  }

  /** Plans a job; null when the selection of its slots fails, which leaves the table as it was. */
  method UpdateJob(job: Item<Job>, slots: array<Slot>, limits: PlanList<Limit>, cfg: Config, fit: seq<Fitness>)
    returns (gaps: PlanList?<Gap>)
    requires cfg.Valid() && Plannable(job.value, cfg) && |fit| == slots.Length && SlotTimes(slots[..])
    requires LimitList(limits) && Settled(limits.Values())
    modifies job`value, slots, limits`current
    ensures LimitList(limits) && limits.Values() == old(limits.Values())
    ensures SameRequest(old(job.value), job.value)
    ensures gaps == null ==> slots[..] == old(slots[..]) && Hopeless(old(slots[..]), old(job.value), fit)
    ensures gaps != null ==>
              && fresh(gaps) && gaps.Valid() && (forall i :: 0 <= i < |gaps.items| ==> fresh(gaps.items[i]))
              && Planned(old(slots[..]), slots[..], old(job.value), job.value, gaps.Values(), limits.Values(), cfg,
                         FirstMarks(old(job.value.fixedNames), old(job.value.reqPpn), old(slots[..]), fit))
  {
    hide InitialMarks, UsableSlots, Selected, RunsTo, Emitted, EarliestStart, Freed, WalltimeClass, CanStart, NoException,
         Timeline, FirstMarks, SortedByTime, SlotTimes, Planned, PlanList.Valid;
    ghost var vs := limits.Values();
    assert forall i :: 0 <= i < |limits.items| ==> limits.items[i] as object != job as object;
    var j := job.value;
    var table := slots[..];
    var ok, sel := SelectFor(j, table, cfg, fit);
    if !ok {
      job.value := j.(startTime := -1, completionTime := -1, fixedNames := j.fixedNames[0 := None]);
      assert limits.Values() == vs;
      return null;
    }
    job.value := j.(startTime := sel.start, completionTime := sel.start + j.estimatedProcessing,
                    cpuIndexes := sel.cpuIndexes, nodes := sel.nodes, latestCpus := sel.latest,
                    fixedNames := if None in j.fixedNames then sel.nodes else j.fixedNames);
    assert limits.Values() == vs;
    AdjustJobStarttime(limits, job, cfg);
    gaps := EmitAndBook(job.value, slots);
    assert limits.Values() == vs;
    PlannedBy(table, slots[..], j, job.value, gaps.Values(), vs, cfg, FirstMarks(j.fixedNames, j.reqPpn, table, fit), sel);
  }

  lemma {:induction false} PlannedBy(slots: seq<Slot>, slots': seq<Slot>, was: Job, job: Job, gs: seq<Gap>,
                                     vs: seq<Limit>, cfg: Config, marks: seq<int>, sel: Selection)
    requires |marks| == |slots| && cfg.Valid() && Plannable(was, cfg)
    requires Selected(slots, marks, was.reqPpn, was.fixedNames, sel) && Indexes(slots, sel.cpuIndexes)
    requires RunsTo(slots, marks, was.reqPpn, was.fixedNames, sel)
    requires job == was.(startTime := job.startTime, completionTime := job.startTime + was.estimatedProcessing,
                         cpuIndexes := sel.cpuIndexes, nodes := sel.nodes, latestCpus := sel.latest,
                         fixedNames := if None in was.fixedNames then sel.nodes else was.fixedNames)
    requires EarliestStart(vs, sel.start, job.startTime, RequestOf(was, cfg), cfg)
    requires Emitted(gs, Chosen(slots, sel.cpuIndexes), sel.start)
    requires Freed(slots, slots', sel.cpuIndexes, job.completionTime)
    ensures Planned(slots, slots', was, job, gs, vs, cfg, marks)
  {
    hide EarliestStart, Emitted, Freed, TakenBy, LeastFit, RunsTo, WalltimeClass;
    assert SelectionOf(job, sel.start) == sel;
  }

  /** Turns the idle time in front of a job into gaps and gives it its slots. */
  method EmitAndBook(job: Job, slots: array<Slot>) returns (gaps: PlanList<Gap>)
    requires Indexes(slots[..], job.cpuIndexes) && SortedByTime(slots[..], job.cpuIndexes) && job.cpuIndexes != []
    requires forall a :: 0 <= a < |job.cpuIndexes| ==> slots[job.cpuIndexes[a]].time >= 0
    requires job.reqNumNodes >= 1
    modifies slots
    ensures fresh(gaps) && gaps.Valid() && (forall i :: 0 <= i < |gaps.items| ==> fresh(gaps.items[i]))
    ensures Emitted(gaps.Values(), Chosen(old(slots[..]), job.cpuIndexes),
                    old(slots[job.cpuIndexes[|job.cpuIndexes| - 1]].time))
    ensures Freed(old(slots[..]), slots[..], job.cpuIndexes, job.completionTime)
  {
    hide Emitted, Freed, SortedByTime;
    gaps := EmitGaps(slots[..], job.cpuIndexes);
    FirstFreeSlotsUpdate(slots, job.cpuIndexes, job.reqNumNodes, job.completionTime);
  }

  /** Selects the slots of a job: marks what fits, and runs the selection. */
  method SelectFor(j: Job, table: seq<Slot>, cfg: Config, fit: seq<Fitness>) returns (ok: bool, sel: Selection)
    requires cfg.Valid() && Plannable(j, cfg) && |fit| == |table| && SlotTimes(table)
    ensures ok ==>
              && Selected(table, FirstMarks(j.fixedNames, j.reqPpn, table, fit), j.reqPpn, j.fixedNames, sel)
              && RunsTo(table, FirstMarks(j.fixedNames, j.reqPpn, table, fit), j.reqPpn, j.fixedNames, sel)
              && Indexes(table, sel.cpuIndexes) && SortedByTime(table, sel.cpuIndexes)
              && |sel.cpuIndexes| == j.usage > 0 && |sel.nodes| == |j.fixedNames|
              && sel.start == table[sel.cpuIndexes[j.usage - 1]].time
              && forall a :: 0 <= a < |sel.cpuIndexes| ==> table[sel.cpuIndexes[a]].time >= 0
    ensures !ok ==> Hopeless(table, j, fit)
  {
    hide InitialMarks, Selected, CanStart, NoException, SortedByTime, FirstMarks, WalltimeClass, Confined, LoopRun, EndsWith, CoresOf;
    var avail := InitAvailability(j, table, fit);
    ghost var marks := avail[..];
    ghost var run;
    ok, sel, run := SelectSlots(j.reqPpn, j.reqNumNodes, j.fixedNames, table, avail);
    if ok {
      SelectedSlots(table, marks, j.reqPpn, j.fixedNames, sel);
    }
  }

  /** The slots selected are in service. */
  lemma {:induction false} SelectedSlots(slots: seq<Slot>, marks: seq<int>, ppn: nat, fixedNames: seq<Option<int>>, sel: Selection)
    requires |marks| == |slots| && Selected(slots, marks, ppn, fixedNames, sel) && SlotTimes(slots)
    requires forall i :: 0 <= i < |slots| ==> IsFresh(marks[i]) ==> slots[i].time != -1
    ensures Indexes(slots, sel.cpuIndexes) && SortedByTime(slots, sel.cpuIndexes)
    ensures |sel.cpuIndexes| == Base(|fixedNames|, ppn) > 0 && |sel.nodes| == |fixedNames|
    ensures sel.start == slots[sel.cpuIndexes[|sel.cpuIndexes| - 1]].time
    ensures forall a :: 0 <= a < |sel.cpuIndexes| ==> slots[sel.cpuIndexes[a]].time >= 0
  {
    hide TakenBy, LeastFit, SafeShape;
  }
}
