/**
 Cached counts of running jobs and their cores (queue_info.cpp, ServerInfo.cpp),
 which must agree with a recount over the running jobs (check.cpp).
 */
module RunningCounters {

  datatype RunJob = RunJob(account: string, group: string, totalProcs: int)

  datatype Kind = JobsOfGroup | JobsOfUser | CoresOfGroup | CoresOfUser | AllCores

  /** The name under which a job is counted. */
  function NameOf(kind: Kind, j: RunJob): string {
    match kind
    case JobsOfGroup => j.group
    case CoresOfGroup => j.group
    case JobsOfUser => j.account
    case CoresOfUser => j.account
    case AllCores => ""
  }

  function Amount(kind: Kind, j: RunJob): int {
    if kind == JobsOfGroup || kind == JobsOfUser then 1 else j.totalProcs
  }

  /** The recount. */
  function Tally(jobs: seq<RunJob>, kind: Kind, name: string): int {
    if jobs == [] then 0
    else
      var j := jobs[|jobs| - 1];
      Tally(jobs[..|jobs| - 1], kind, name) + if NameOf(kind, j) == name then Amount(kind, j) else 0
  }

  lemma {:induction false} TallyAppend(jobs: seq<RunJob>, j: RunJob, kind: Kind, name: string)
    ensures Tally(jobs + [j], kind, name) == Tally(jobs, kind, name) + if NameOf(kind, j) == name then Amount(kind, j) else 0
  {
    assert (jobs + [j])[..|jobs|] == jobs;
  }

  /** The recount in the fields of the jobs: one more job, or so many more cores, under the name of the job's group or account. */
  lemma {:induction false} TallyInFields(jobs: seq<RunJob>, j: RunJob, name: string)
    ensures forall kind :: Tally([], kind, name) == 0
    ensures Tally(jobs + [j], JobsOfGroup, name) == Tally(jobs, JobsOfGroup, name) + if j.group == name then 1 else 0
    ensures Tally(jobs + [j], JobsOfUser, name) == Tally(jobs, JobsOfUser, name) + if j.account == name then 1 else 0
    ensures Tally(jobs + [j], CoresOfGroup, name) == Tally(jobs, CoresOfGroup, name) + if j.group == name then j.totalProcs else 0
    ensures Tally(jobs + [j], CoresOfUser, name) == Tally(jobs, CoresOfUser, name) + if j.account == name then j.totalProcs else 0
    ensures Tally(jobs + [j], AllCores, "") == Tally(jobs, AllCores, "") + j.totalProcs
  {
    assert (jobs + [j])[..|jobs|] == jobs;
  }

  method Recount(jobs: seq<RunJob>, kind: Kind, name: string) returns (count: int)
    ensures count == Tally(jobs, kind, name)
  {
    count := 0;
    for i := 0 to |jobs|
      invariant count == Tally(jobs[..i], kind, name)
    {
      assert jobs[..i + 1] == jobs[..i] + [jobs[i]];
      TallyAppend(jobs[..i], jobs[i], kind, name);
      if NameOf(kind, jobs[i]) == name {
        count := count + Amount(kind, jobs[i]);
      }
    }
    assert jobs[..|jobs|] == jobs;
  }

  /** Every cached entry equals the recount. */
  ghost predicate Right(cache: map<string, int>, jobs: seq<RunJob>, kind: Kind) {
    forall name :: name in cache ==> cache[name] == Tally(jobs, kind, name)
  }

  /** Counts a job that has just joined the running ones: raises its entry, or creates it by a recount. */
  method CountIn(cache: map<string, int>, jobs: seq<RunJob>, kind: Kind, j: RunJob, ghost before: seq<RunJob>)
    returns (raised: map<string, int>)
    requires jobs == before + [j] && Right(cache, before, kind)
    ensures Right(raised, jobs, kind) && raised.Keys == cache.Keys + {NameOf(kind, j)}
  {
    var name := NameOf(kind, j);
    forall other
      ensures Tally(jobs, kind, other) == Tally(before, kind, other) + if name == other then Amount(kind, j) else 0
    {
      TallyAppend(before, j, kind, other);
    }
    if name in cache {
      raised := cache[name := cache[name] + Amount(kind, j)];
    } else {
      var count := Recount(jobs, kind, name);
      raised := cache[name := count];
    }
  }

  /** Looks up an entry; a missing one is recounted and remembered. */
  method LookUp(cache: map<string, int>, jobs: seq<RunJob>, kind: Kind, name: string) returns (count: int, kept: map<string, int>)
    requires Right(cache, jobs, kind)
    ensures count == Tally(jobs, kind, name)
    ensures Right(kept, jobs, kind) && kept.Keys == cache.Keys + {name}
  {
    kept := cache;
    if name !in cache {
      count := Recount(jobs, kind, name);
      kept := cache[name := count];
    }
    count := kept[name];
  }

  /** A queue with its counters and caches. */
  class QueueInfo {
    var running: int
    var queued: int
    var runningJobs: seq<RunJob>
    var jobsByGroup: map<string, int>
    var jobsByUser: map<string, int>
    var coresKnown: bool
    var cores: int
    var coresByGroup: map<string, int>
    var coresByUser: map<string, int>

    ghost predicate Coherent()
      reads this
    {
      && running == |runningJobs|
      && Right(jobsByGroup, runningJobs, JobsOfGroup) && Right(jobsByUser, runningJobs, JobsOfUser)
      && Right(coresByGroup, runningJobs, CoresOfGroup) && Right(coresByUser, runningJobs, CoresOfUser)
      && (coresKnown ==> cores == Tally(runningJobs, AllCores, ""))
    }

    method UpdateOnJobRun(j: RunJob)
      requires Coherent()
      modifies this
      ensures Coherent() && runningJobs == old(runningJobs) + [j]
      ensures running == old(running) + 1 && queued == old(queued) - 1 && coresKnown
      ensures jobsByGroup.Keys == old(jobsByGroup.Keys) + {j.group} && jobsByUser.Keys == old(jobsByUser.Keys) + {j.account}
      ensures coresByGroup.Keys == old(coresByGroup.Keys) + {j.group} && coresByUser.Keys == old(coresByUser.Keys) + {j.account}
    {
      hide Right, Tally;
      ghost var before := runningJobs;
      running := running + 1;
      queued := queued - 1;
      runningJobs := runningJobs + [j];
      jobsByGroup := CountIn(jobsByGroup, runningJobs, JobsOfGroup, j, before);
      jobsByUser := CountIn(jobsByUser, runningJobs, JobsOfUser, j, before);
      UpdateCores(j, before);
    }

    /** The part of the update that counts cores. */
    method UpdateCores(j: RunJob, ghost before: seq<RunJob>)
      requires runningJobs == before + [j]
      requires Right(coresByGroup, before, CoresOfGroup) && Right(coresByUser, before, CoresOfUser)
      requires coresKnown ==> cores == Tally(before, AllCores, "")
      modifies `coresKnown, `cores, `coresByGroup, `coresByUser
      ensures Right(coresByGroup, runningJobs, CoresOfGroup) && Right(coresByUser, runningJobs, CoresOfUser)
      ensures coresKnown && cores == Tally(runningJobs, AllCores, "")
      ensures coresByGroup.Keys == old(coresByGroup.Keys) + {j.group} && coresByUser.Keys == old(coresByUser.Keys) + {j.account}
    {
      hide Right, Tally;
      TallyAppend(before, j, AllCores, "");
      if coresKnown {
        cores := cores + j.totalProcs;
      } else {
        coresKnown := true;
        cores := Recount(runningJobs, AllCores, "");
      }
      coresByGroup := CountIn(coresByGroup, runningJobs, CoresOfGroup, j, before);
      coresByUser := CountIn(coresByUser, runningJobs, CoresOfUser, j, before);
    }

    method NumberOfRunningJobsForGroup(name: string) returns (count: int)
      requires Coherent()
      modifies `jobsByGroup
      ensures Coherent() && count == Tally(runningJobs, JobsOfGroup, name) && jobsByGroup.Keys == old(jobsByGroup.Keys) + {name}
    {
      count, jobsByGroup := LookUp(jobsByGroup, runningJobs, JobsOfGroup, name);
    }

    method NumberOfRunningJobsForUser(name: string) returns (count: int)
      requires Coherent()
      modifies `jobsByUser
      ensures Coherent() && count == Tally(runningJobs, JobsOfUser, name) && jobsByUser.Keys == old(jobsByUser.Keys) + {name}
    {
      count, jobsByUser := LookUp(jobsByUser, runningJobs, JobsOfUser, name);
    }

    method NumberOfRunningCores() returns (count: int)
      requires Coherent()
      modifies `cores, `coresKnown
      ensures Coherent() && count == Tally(runningJobs, AllCores, "") && coresKnown
    {
      if !coresKnown {
        coresKnown := true;
        cores := Recount(runningJobs, AllCores, "");
      }
      count := cores;
    }

    /**
     Remembers the cores it counts among the numbers of jobs. The answer is right,
     and the caches stay coherent, only under the conditions stated here.
     */
    method NumberOfRunningCoresForGroup(name: string) returns (count: int)
      requires Coherent()
      modifies `jobsByGroup
      ensures count == Tally(runningJobs, CoresOfGroup, name) <==>
                name in coresByGroup || name !in old(jobsByGroup) || SameTally(runningJobs, JobsOfGroup, CoresOfGroup, name)
      ensures Coherent() <==>
                name in coresByGroup || name in old(jobsByGroup) || SameTally(runningJobs, JobsOfGroup, CoresOfGroup, name)
      ensures jobsByGroup.Keys == old(jobsByGroup.Keys) + if name in coresByGroup then {} else {name}
      ensures runningJobs == old(runningJobs)
    {
      if name in coresByGroup {
        return coresByGroup[name];
      }
      var recount := Recount(runningJobs, CoresOfGroup, name);
      if name !in jobsByGroup {
        jobsByGroup := jobsByGroup[name := recount];
        assert jobsByGroup[name] == recount;
      }
      count := jobsByGroup[name];
    }

    method NumberOfRunningCoresForUser(name: string) returns (count: int)
      requires Coherent()
      modifies `jobsByUser
      ensures count == Tally(runningJobs, CoresOfUser, name) <==>
                name in coresByUser || name !in old(jobsByUser) || SameTally(runningJobs, JobsOfUser, CoresOfUser, name)
      ensures Coherent() <==>
                name in coresByUser || name in old(jobsByUser) || SameTally(runningJobs, JobsOfUser, CoresOfUser, name)
      ensures jobsByUser.Keys == old(jobsByUser.Keys) + if name in coresByUser then {} else {name}
      ensures runningJobs == old(runningJobs)
    {
      if name in coresByUser {
        return coresByUser[name];
      }
      var recount := Recount(runningJobs, CoresOfUser, name);
      if name !in jobsByUser {
        jobsByUser := jobsByUser[name := recount];
        assert jobsByUser[name] == recount;
      }
      count := jobsByUser[name];
    }
  }

  /** There are as many jobs as cores. */
  ghost predicate SameTally(jobs: seq<RunJob>, a: Kind, b: Kind, name: string) {
    Tally(jobs, a, name) == Tally(jobs, b, name)
  }

  /** The counters of the whole server. */
  class ServerInfo {
    var running: int
    var queued: int
    var runningJobs: seq<RunJob>
    var jobsByGroup: map<string, int>
    var jobsByUser: map<string, int>

    ghost predicate Coherent()
      reads this
    {
      && running == |runningJobs|
      && Right(jobsByGroup, runningJobs, JobsOfGroup) && Right(jobsByUser, runningJobs, JobsOfUser)
    }

    method UpdateOnJobRun(j: RunJob)
      requires Coherent()
      modifies this
      ensures Coherent() && runningJobs == old(runningJobs) + [j]
      ensures running == old(running) + 1 && queued == old(queued) - 1
      ensures jobsByGroup.Keys == old(jobsByGroup.Keys) + {j.group} && jobsByUser.Keys == old(jobsByUser.Keys) + {j.account}
    {
      hide Right, Tally;
      ghost var before := runningJobs;
      running := running + 1;
      queued := queued - 1;
      runningJobs := runningJobs + [j];
      jobsByGroup := CountIn(jobsByGroup, runningJobs, JobsOfGroup, j, before);
      jobsByUser := CountIn(jobsByUser, runningJobs, JobsOfUser, j, before);
    }

    method NumberOfRunningJobsForGroup(name: string) returns (count: int)
      requires Coherent()
      modifies `jobsByGroup
      ensures Coherent() && count == Tally(runningJobs, JobsOfGroup, name) && jobsByGroup.Keys == old(jobsByGroup.Keys) + {name}
    {
      count, jobsByGroup := LookUp(jobsByGroup, runningJobs, JobsOfGroup, name);
    }

    method NumberOfRunningJobsForUser(name: string) returns (count: int)
      requires Coherent()
      modifies `jobsByUser
      ensures Coherent() && count == Tally(runningJobs, JobsOfUser, name) && jobsByUser.Keys == old(jobsByUser.Keys) + {name}
    {
      count, jobsByUser := LookUp(jobsByUser, runningJobs, JobsOfUser, name);
    }
  }

  // ----- any sequence of calls

  datatype Call = Run(job: RunJob) | AskGroup(name: string) | AskUser(name: string) | AskCores

  /** The jobs that run after some calls. */
  function JobsAfter(jobs: seq<RunJob>, calls: seq<Call>): seq<RunJob> {
    if calls == [] then jobs
    else
      var before := JobsAfter(jobs, calls[..|calls| - 1]);
      var c := calls[|calls| - 1];
      if c.Run? then before + [c.job] else before
  }

  /** What a call must answer when these jobs run. */
  function Answer(jobs: seq<RunJob>, c: Call): int {
    match c
    case Run(_) => 0
    case AskGroup(name) => Tally(jobs, JobsOfGroup, name)
    case AskUser(name) => Tally(jobs, JobsOfUser, name)
    case AskCores => Tally(jobs, AllCores, "")
  }

  method ServeOne(info: QueueInfo, c: Call) returns (answer: int)
    requires info.Coherent()
    modifies info
    ensures info.Coherent() && answer == Answer(old(info.runningJobs), c)
    ensures info.runningJobs == if c.Run? then old(info.runningJobs) + [c.job] else old(info.runningJobs)
  {
    hide Tally, QueueInfo.Coherent;
    answer := 0;
    match c {
      case Run(job) => info.UpdateOnJobRun(job);
      case AskGroup(name) => answer := info.NumberOfRunningJobsForGroup(name);
      case AskUser(name) => answer := info.NumberOfRunningJobsForUser(name);
      case AskCores => answer := info.NumberOfRunningCores();
    }
  }

  /** Whatever is called in whatever order, the answers are those of a recount at that moment. */
  method Serve(info: QueueInfo, calls: seq<Call>) returns (answers: seq<int>)
    requires info.Coherent()
    modifies info
    ensures info.Coherent() && info.runningJobs == JobsAfter(old(info.runningJobs), calls)
    ensures |answers| == |calls|
    ensures forall i :: 0 <= i < |calls| ==> answers[i] == Answer(JobsAfter(old(info.runningJobs), calls[..i]), calls[i])
  {
    hide Tally, Answer, QueueInfo.Coherent;
    answers := [];
    for n := 0 to |calls|
      invariant info.Coherent() && info.runningJobs == JobsAfter(old(info.runningJobs), calls[..n])
      invariant |answers| == n
      invariant forall i :: 0 <= i < n ==> answers[i] == Answer(JobsAfter(old(info.runningJobs), calls[..i]), calls[i])
    {
      assert calls[..n + 1][..n] == calls[..n];
      var answer := ServeOne(info, calls[n]);
      answers := answers + [answer];
    }
    assert calls[..|calls|] == calls;
  }
}
