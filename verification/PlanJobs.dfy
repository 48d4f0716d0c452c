/** The job records of the plan (plan_data_types.h, plan_jobs.cpp). */
module PlanJobs {

  datatype Option<+T> = None | Some(value: T)

  datatype JobState = Queued | Running | OtherState

  /** A planned job; cpuIndexes are the slots that the plan gives to it. */
  datatype Job = Job(
    jobId: int,
    state: JobState,
    priority: int,
    availableAfter: int,
    account: string,
    accountId: int,
    reqGpu: int,
    usage: int,
    reqPpn: int,
    reqNumNodes: int,
    estimatedProcessing: int,
    startTime: int,
    completionTime: int,
    fixedNames: seq<Option<int>>,
    fixedBackup: Option<seq<Option<int>>>,
    nodes: seq<Option<int>>,
    latestCpus: seq<int>,
    cpuIndexes: seq<int>)
  {
    /** The CPUs that count against the limits. */
    function Cpus(): int {
      reqPpn * reqNumNodes
    }
  }
}
