/** The job records that are ordered and picked by fair share (JobInfo.h, GroupInfo). */
module JobInfos {
  import opened PlanJobs

  /** Shares and usage of a user; ratios are exact numbers here. */
  datatype GroupInfo = GroupInfo(percentage: real, tempUsage: real) {
    predicate Valid() {
      percentage >= 0.0 && tempUsage > 0.0
    }

    function Ratio(): real
      requires tempUsage > 0.0
    {
      percentage / tempUsage
    }
  }

  /**
   A job: number is what its identifier starts with, rank the place of the whole
   identifier among all strings; the amounts are its resource requests.
   */
  datatype JobInfo = JobInfo(number: int, rank: int, state: JobState, canNotRun: bool, queuePriority: int, priority: int,
                             account: string, ginfo: GroupInfo,
                             walltime: Option<int>, cput: Option<int>, mem: Option<int>)
  {
    predicate SuitableForRun() {
      !canNotRun
    }

    predicate Eligible() {
      SuitableForRun() && state != Running
    }
  }

  /** Irreflexive and transitive, and so is being incomparable: what std::sort demands. */
  ghost predicate StrictWeakOrder<T(!new)>(less: (T, T) -> bool) {
    && (forall x :: !less(x, x))
    && (forall x, y, z :: less(x, y) && less(y, z) ==> less(x, z))
    && (forall x, y, z :: Tied(less, x, y) && Tied(less, y, z) ==> Tied(less, x, z))
  }

  ghost predicate Tied<T(!new)>(less: (T, T) -> bool, x: T, y: T) {
    !less(x, y) && !less(y, x)
  }
}
