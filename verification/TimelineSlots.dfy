/**
 The timeline of limits (plan_limits.cpp) against the slot table (plan_operations.cpp):
 both count the same CPUs at every instant of a plan.
 */
module TimelineSlots {
  import opened PlanLists
  import opened PlanJobs
  import opened SlotSelection
  import opened SlotRuns
  import opened Gaps
  import opened GapEmission
  import opened SlotBooking
  import opened Limits
  import opened LimitRuns
  import opened JobPlanning
  import opened PlanSafety

  /** What all accounts hold at an instant, in the first so many walltime classes. */
  ghost function TimelineCpus(vs: seq<Limit>, t: int, classes: nat): int {
    if classes == 0 then 0 else TimelineCpus(vs, t, classes - 1) + AmountAt(vs, t, Everyone, classes - 1)
  }

  /** The slots recorded for planned jobs at an instant. */
  ghost function RecordedSlots(js: seq<Job>, t: int): int {
    if js == [] then 0
    else
      var j := js[|js| - 1];
      RecordedSlots(js[..|js| - 1], t) + if j.state == Queued && j.startTime <= t < j.completionTime then |j.cpuIndexes| else 0
  }

  /** What running jobs have asked for, at an instant. */
  ghost function RunningCpus(js: seq<Job>, t: int): int {
    if js == [] then 0
    else
      var j := js[|js| - 1];
      RunningCpus(js[..|js| - 1], t) +
      if j.state == Running && j.startTime <= t < j.completionTime then j.reqPpn * j.reqNumNodes else 0
  }

  ghost function SumOfClasses(js: seq<Job>, t: int, cfg: Config, classes: nat): int {
    if classes == 0 then 0 else SumOfClasses(js, t, cfg, classes - 1) + SumOf(js, All, t, Everyone, classes - 1, cfg)
  }

  ghost function AmountOfClasses(job: Job, t: int, cfg: Config, classes: nat): int {
    if classes == 0 then 0 else AmountOfClasses(job, t, cfg, classes - 1) + AmountOf(job, All, t, Everyone, classes - 1, cfg)
  }

  lemma {:induction false} SumOfClassesNext(js: seq<Job>, t: int, cfg: Config, classes: nat)
    requires js != []
    ensures SumOfClasses(js, t, cfg, classes) ==
            SumOfClasses(js[..|js| - 1], t, cfg, classes) + AmountOfClasses(js[|js| - 1], t, cfg, classes)
  {
    if classes > 0 {
      SumOfClassesNext(js, t, cfg, classes - 1);
    }
  }

  lemma {:induction false} SumOfNoJobs(t: int, cfg: Config, classes: nat)
    ensures SumOfClasses([], t, cfg, classes) == 0
  {
    if classes > 0 {
      SumOfNoJobs(t, cfg, classes - 1);
    }
  }

  /** A job belongs to one class. */
  lemma {:induction false} OneClassOnly(job: Job, t: int, cfg: Config, classes: nat)
    ensures AmountOfClasses(job, t, cfg, classes) == if Covers(job, t) && ClassOf(job, cfg) < classes then job.Cpus() else 0
  {
    hide WalltimeClass;
    if classes > 0 {
      OneClassOnly(job, t, cfg, classes - 1);
    }
  }

  lemma {:induction false} TimelineIsClasses(js: seq<Job>, vs: seq<Limit>, t: int, cfg: Config, classes: nat)
    requires RefinesSum(js, vs, cfg)
    ensures TimelineCpus(vs, t, classes) == SumOfClasses(js, t, cfg, classes)
  {
    if classes > 0 {
      TimelineIsClasses(js, vs, t, cfg, classes - 1);
    }
  }

  lemma {:induction false} SizeOfAll(sel: seq<Slot>)
    ensures SizeOf(sel, Usage) == |sel|
  {
    if sel != [] {
      SizeOfAll(sel[..|sel| - 1]);
    }
  }

  /** A planned job has as many recorded slots as it counts CPUs against the limits. */
  lemma {:induction false} CpusAreSlots(slots0: seq<Slot>, names: seq<Option<int>>, before: seq<Job>, job: Job, fit: seq<Fitness>, cfg: Config)
    requires BestPlan(slots0, names, before, job, fit, cfg) && OwnSlots(slots0, job)
    ensures Indexes(slots0, job.cpuIndexes) && |job.cpuIndexes| == job.reqPpn * job.reqNumNodes
  {
    hide TableAfter, FirstMarks, LeastFit, LeastUnblocked, RunsTo, TakenBy, WalltimeClass, FreePart, NotBefore, SafeShape;
    var takes :| GivenSlots(slots0, job, takes);
    assert |job.cpuIndexes| == Base(|names|, job.reqPpn) && |job.nodes| == |names|;
  }

  lemma {:induction false} ClassesAreSlots(slots0: seq<Slot>, was: seq<Job>, js: seq<Job>, fit: (nat, nat) -> Fitness, cfg: Config, t: int)
    requires cfg.Valid() && LimitRun(js, cfg) && StartsFree(slots0, js) && WellPlanned(slots0, was, js, fit, cfg)
    ensures SumOfClasses(js, t, cfg, NUM_LIMITS) == Held(slots0, js, t, Usage) + RunningCpus(js, t)
    ensures Held(slots0, js, t, Usage) == RecordedSlots(js, t)
  {
    hide BestPlan, OwnSlots, FitnessRow, ClassOf, BlockedAt, WalltimeClass;
    if js == [] {
      SumOfNoJobs(t, cfg, NUM_LIMITS);
    } else {
      var l := |js| - 1;
      var front, job := js[..l], js[l];
      assert forall a :: 0 <= a < l ==> front[..a] == js[..a] && front[a] == js[a];
      ClassesAreSlots(slots0, was, front, fit, cfg, t);
      SumOfClassesNext(js, t, cfg, NUM_LIMITS);
      OneClassOnly(job, t, cfg, NUM_LIMITS);
      assert Admitted(front, job, cfg);
      if job.state == Queued {
        CpusAreSlots(slots0, was[l].fixedNames, front, job, FitnessRow(fit, l, |slots0|), cfg);
        SizeOfAll(Chosen(slots0, job.cpuIndexes));
      }
    }
  }

  /**
   At every instant of a plan the timeline holds, in all classes together, as many
   CPUs as slots are recorded for planned jobs, and what running jobs have asked for.
   */
  lemma {:induction false} TimelineCountsSlots(slots0: seq<Slot>, was: seq<Job>, js: seq<Job>, gs: seq<Gap>, vs: seq<Limit>,
                                               fit: (nat, nat) -> Fitness, cfg: Config, down: set<int>, now: int, t: int)
    requires cfg.Valid() && SafePlan(slots0, js, gs, vs, cfg, down, now) && WellPlanned(slots0, was, js, fit, cfg)
    ensures TimelineCpus(vs, t, NUM_LIMITS) == RecordedSlots(js, t) + RunningCpus(js, t)
    ensures RecordedSlots(js, t) == Held(slots0, js, t, Usage)
  {
    hide WellPlanned, StartsFree, RefinesSum, LimitRun, Agrees, Accounted, Timeline, GapSequence, NoDoubleBooking, Grown;
    TimelineIsClasses(js, vs, t, cfg, NUM_LIMITS);
    ClassesAreSlots(slots0, was, js, fit, cfg, t);
  }
}
