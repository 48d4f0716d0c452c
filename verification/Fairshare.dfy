/**
 Picking the next job by fair share (fairshare.cpp), from all jobs or from the
 index of jobs by owner (ServerInfo.cpp).
 */
module Fairshare {
  import opened PlanJobs
  import opened JobInfos

  ghost predicate ValidShares(jobs: seq<JobInfo>) {
    forall i :: 0 <= i < |jobs| ==> jobs[i].ginfo.Valid()
  }

  // ----- what is picked

  /** No worse than the other job: of a more important queue, or of the same one with at least its ratio. */
  predicate AtLeast(j: JobInfo, k: JobInfo, byQueue: bool)
    requires j.ginfo.Valid() && k.ginfo.Valid()
  {
    if byQueue && j.queuePriority != k.queuePriority then j.queuePriority > k.queuePriority
    else j.ginfo.Ratio() >= k.ginfo.Ratio()
  }

  /** Jobs that can be picked; by queue priority, those of queues below -1 never are. */
  predicate InReach(j: JobInfo, byQueue: bool) {
    j.Eligible() && (byQueue ==> j.queuePriority >= -1)
  }

  /** A best job within reach, or none when none is. */
  ghost predicate BestPick(jobs: seq<JobInfo>, byQueue: bool, pick: Option<JobInfo>)
    requires ValidShares(jobs)
  {
    match pick
    case None => forall i :: 0 <= i < |jobs| ==> !InReach(jobs[i], byQueue)
    case Some(j) =>
      && j in jobs && InReach(j, byQueue)
      && forall i :: 0 <= i < |jobs| && InReach(jobs[i], byQueue) ==> AtLeast(j, jobs[i], byQueue)
  }

  /** The best pick is determined up to jobs of the same queue priority and the same ratio. */
  lemma {:induction false} PicksAgree(jobs: seq<JobInfo>, p: Option<JobInfo>, q: Option<JobInfo>)
    requires ValidShares(jobs) && BestPick(jobs, true, p) && BestPick(jobs, true, q)
    ensures p == None <==> q == None
    ensures p.Some? && q.Some? ==>
              p.value.queuePriority == q.value.queuePriority && p.value.ginfo.Ratio() == q.value.ginfo.Ratio()
  {
    if p.Some? && q.Some? {
      assert AtLeast(p.value, q.value, true) && AtLeast(q.value, p.value, true);
    }
  }

  // ----- what a pick means in the fields of the jobs

  /** Comparing ratios is comparing shares weighed by the other's usage. */
  lemma {:induction false} RatioByShares(a: GroupInfo, b: GroupInfo)
    requires a.Valid() && b.Valid()
    ensures a.Ratio() >= b.Ratio() <==> a.percentage * b.tempUsage >= b.percentage * a.tempUsage
    ensures a.Ratio() > b.Ratio() <==> a.percentage * b.tempUsage > b.percentage * a.tempUsage
  {
    var x, y, u := a.Ratio(), b.Ratio(), a.tempUsage * b.tempUsage;
    assert u > 0.0;
    assert a.percentage == x * a.tempUsage && b.percentage == y * b.tempUsage;
    assert a.percentage * b.tempUsage == x * u && b.percentage * a.tempUsage == y * u;
    Scaled(x, y, u);
    Scaled(y, x, u);
  }

  lemma {:induction false} Scaled(x: real, y: real, u: real)
    requires u > 0.0
    ensures x > y <==> x * u > y * u
  {
    if x > y {
      assert (x - y) * u > 0.0;
    } else {
      assert (y - x) * u >= 0.0;
    }
  }

  /** Jobs that can run and do not, of queues that are considered. */
  ghost predicate Waiting(j: JobInfo, byQueue: bool) {
    !j.canNotRun && j.state != Running && (byQueue ==> j.queuePriority >= -1)
  }

  /** A job of a more important queue, or of the same one with at least the share per usage. */
  ghost predicate NoWorse(j: JobInfo, k: JobInfo, byQueue: bool) {
    || (byQueue && j.queuePriority > k.queuePriority)
    || ((byQueue ==> j.queuePriority == k.queuePriority)
        && j.ginfo.percentage * k.ginfo.tempUsage >= k.ginfo.percentage * j.ginfo.tempUsage)
  }

  /**
   A pick is a waiting job that is no worse than any other waiting one, and there is
   no pick exactly when no job waits.
   */
  lemma {:induction false} PickInFields(jobs: seq<JobInfo>, byQueue: bool, pick: Option<JobInfo>)
    requires ValidShares(jobs)
    ensures BestPick(jobs, byQueue, pick) <==>
            match pick
            case None => forall i :: 0 <= i < |jobs| ==> !Waiting(jobs[i], byQueue)
            case Some(j) =>
              && j in jobs && Waiting(j, byQueue)
              && forall i :: 0 <= i < |jobs| && Waiting(jobs[i], byQueue) ==> NoWorse(j, jobs[i], byQueue)
  {
    if pick.Some? && pick.value in jobs {
      var j := pick.value;
      forall i | 0 <= i < |jobs|
        ensures AtLeast(j, jobs[i], byQueue) <==> NoWorse(j, jobs[i], byQueue)
      {
        RatioByShares(j.ginfo, jobs[i].ginfo);
      }
    }
  }

  // ----- picking from all jobs

  /** The first one of the best jobs. */
  method ExtractFromAll(jobs: seq<JobInfo>, byQueue: bool) returns (max: Option<JobInfo>)
    requires ValidShares(jobs)
    ensures BestPick(jobs, byQueue, max)
    ensures max == None ==> forall i :: 0 <= i < |jobs| ==> !Waiting(jobs[i], byQueue)
    ensures max.Some? ==> Waiting(max.value, byQueue) && FirstBest(jobs, byQueue, max.value)
    ensures max.Some? ==> forall i :: 0 <= i < |jobs| && Waiting(jobs[i], byQueue) ==> NoWorse(max.value, jobs[i], byQueue)
  {
    max := None;
    var maxValue: real, maxPriority := -1.0, -1;
    for n := 0 to |jobs|
      invariant BestPick(jobs[..n], byQueue, max)
      invariant max.Some? ==> FirstBest(jobs[..n], byQueue, max.value)
      invariant max == None ==> maxValue == -1.0 && maxPriority == -1
      invariant max.Some? ==> maxValue == max.value.ginfo.Ratio() && (byQueue ==> maxPriority == max.value.queuePriority)
    {
      var j := jobs[n];
      assert jobs[..n + 1] == jobs[..n] + [j];
      assert j.ginfo.Ratio() >= 0.0;
      if max.Some? {
        FirstBestStays(jobs, n, byQueue, max.value);
      }
      if !j.SuitableForRun() || j.state == Running {
        continue;
      }
      if byQueue {
        if j.queuePriority < maxPriority {
          continue;
        }
        if j.queuePriority > maxPriority {
          maxValue := -1.0;
        }
        maxPriority := j.queuePriority;
      }
      var curValue := j.ginfo.Ratio();
      if maxValue < curValue {
        NewBestIsFirst(jobs, n, byQueue, max);
        max := Some(j);
        maxValue := curValue;
      }
    }
    assert jobs[..|jobs|] == jobs;
    PickInFields(jobs, byQueue, max);
  }

  /** The first one that is as good: all waiting jobs in front of it are worse. */
  ghost predicate FirstBest(jobs: seq<JobInfo>, byQueue: bool, j: JobInfo) {
    exists n :: 0 <= n < |jobs| && jobs[n] == j && forall i :: 0 <= i < n && Waiting(jobs[i], byQueue) ==> !NoWorse(jobs[i], j, byQueue)
  }

  lemma {:induction false} FirstBestStays(jobs: seq<JobInfo>, n: nat, byQueue: bool, j: JobInfo)
    requires n < |jobs| && FirstBest(jobs[..n], byQueue, j)
    ensures FirstBest(jobs[..n + 1], byQueue, j)
  {
    hide NoWorse, Waiting;
    var front := jobs[..n];
    var k :| 0 <= k < |front| && front[k] == j && forall i :: 0 <= i < k && Waiting(front[i], byQueue) ==> !NoWorse(front[i], j, byQueue);
    assert jobs[..n + 1][k] == j;
    assert forall i :: 0 <= i < k ==> jobs[..n + 1][i] == front[i];
  }

  /** A job that beats the best one so far beats all in front of it. */
  lemma {:induction false} NewBestIsFirst(jobs: seq<JobInfo>, n: nat, byQueue: bool, best: Option<JobInfo>)
    requires ValidShares(jobs) && n < |jobs| && BestPick(jobs[..n], byQueue, best)
    requires best.Some? ==> !AtLeast(best.value, jobs[n], byQueue)
    ensures FirstBest(jobs[..n + 1], byQueue, jobs[n])
  {
    var j := jobs[n];
    forall i | 0 <= i < n && Waiting(jobs[i], byQueue)
      ensures !NoWorse(jobs[i], j, byQueue)
    {
      assert jobs[..n][i] == jobs[i];
      RatioByShares(jobs[i].ginfo, j.ginfo);
    }
    assert jobs[..n + 1][n] == j;
    assert forall i :: 0 <= i < n ==> jobs[..n + 1][i] == jobs[i];
  }

  // ----- the index of jobs by owner

  datatype Owner = Owner(account: string, jobs: seq<JobInfo>)

  /** The order of the jobs of one owner: by queue priority, by priority, by identifier. */
  predicate Ahead(l: JobInfo, r: JobInfo) {
    if l.queuePriority > r.queuePriority then true
    else if l.queuePriority < r.queuePriority then false
    else if l.priority > r.priority then true
    else if l.priority < r.priority then false
    else l.rank < r.rank
  }

  ghost predicate SortedOwn(jobs: seq<JobInfo>) {
    forall i, j :: 0 <= i < j < |jobs| ==>
      || jobs[i].queuePriority > jobs[j].queuePriority
      || (jobs[i].queuePriority == jobs[j].queuePriority && jobs[i].priority > jobs[j].priority)
      || (jobs[i].queuePriority == jobs[j].queuePriority && jobs[i].priority == jobs[j].priority && jobs[i].rank <= jobs[j].rank)
  }

  /** The jobs of an owner, in the order of the list. */
  ghost function JobsOf(jobs: seq<JobInfo>, account: string): seq<JobInfo> {
    if jobs == [] then []
    else
      var l := |jobs| - 1;
      JobsOf(jobs[..l], account) + if jobs[l].account == account then [jobs[l]] else []
  }

  /** Every owner is listed once. */
  ghost predicate OncePerOwner(owners: seq<Owner>) {
    forall a, b :: 0 <= a < b < |owners| ==> owners[a].account != owners[b].account
  }

  /** Every owner has exactly the jobs of that owner. */
  ghost predicate OwnJobs(jobs: seq<JobInfo>, owners: seq<Owner>) {
    forall a :: 0 <= a < |owners| ==> multiset(owners[a].jobs) == multiset(JobsOf(jobs, owners[a].account))
  }

  ghost predicate NobodyMissing(jobs: seq<JobInfo>, owners: seq<Owner>) {
    forall i :: 0 <= i < |jobs| ==> exists a :: 0 <= a < |owners| && owners[a].account == jobs[i].account
  }

  ghost predicate Indexed(jobs: seq<JobInfo>, owners: seq<Owner>) {
    OncePerOwner(owners) && OwnJobs(jobs, owners) && NobodyMissing(jobs, owners)
  }

  ghost predicate IndexedSorted(jobs: seq<JobInfo>, owners: seq<Owner>) {
    Indexed(jobs, owners) && forall a :: 0 <= a < |owners| ==> SortedOwn(owners[a].jobs)
  }

  lemma {:induction false} JobsOfMembers(jobs: seq<JobInfo>, account: string)
    ensures forall i :: 0 <= i < |JobsOf(jobs, account)| ==> JobsOf(jobs, account)[i] in jobs && JobsOf(jobs, account)[i].account == account
    ensures forall i :: 0 <= i < |jobs| && jobs[i].account == account ==> jobs[i] in JobsOf(jobs, account)
  {
    if jobs != [] {
      var l := |jobs| - 1;
      JobsOfMembers(jobs[..l], account);
      assert jobs[l] in jobs;
      assert forall j :: j in jobs[..l] ==> j in jobs;
    }
  }

  method InsertOwn(sorted: seq<JobInfo>, j: JobInfo) returns (r: seq<JobInfo>)
    requires SortedOwn(sorted)
    ensures SortedOwn(r) && multiset(r) == multiset(sorted) + multiset{j}
  {
    hide SortedOwn;
    var p: nat := |sorted|;
    while p > 0 && Ahead(j, sorted[p - 1])
      invariant p <= |sorted|
      invariant forall i :: p <= i < |sorted| ==> Ahead(j, sorted[i])
    {
      p := p - 1;
    }
    SortedInsert(sorted, p, j);
    assert sorted == sorted[..p] + sorted[p..];
    r := sorted[..p] + [j] + sorted[p..];
  }

  /** Sorts the jobs of one owner; the standard sort, which may order ties as it likes, is an insertion sort here. */
  method SortOwn(jobs: seq<JobInfo>) returns (sorted: seq<JobInfo>)
    ensures SortedOwn(sorted) && multiset(sorted) == multiset(jobs)
  {
    sorted := [];
    for n := 0 to |jobs|
      invariant SortedOwn(sorted) && multiset(sorted) == multiset(jobs[..n])
    {
      assert jobs[..n + 1] == jobs[..n] + [jobs[n]];
      sorted := InsertOwn(sorted, jobs[n]);
    }
    assert jobs[..|jobs|] == jobs;
  }

  lemma {:induction false} SortedInsert(sorted: seq<JobInfo>, p: nat, j: JobInfo)
    requires SortedOwn(sorted) && p <= |sorted|
    requires p > 0 ==> !Ahead(j, sorted[p - 1])
    requires forall i :: p <= i < |sorted| ==> Ahead(j, sorted[i])
    ensures SortedOwn(sorted[..p] + [j] + sorted[p..])
  {
    var r := sorted[..p] + [j] + sorted[p..];
    hide SortedOwn;
    forall i, k | 0 <= i < k < |r|
      ensures InOwnOrder(r[i], r[k])
    {
      assert r[i] == if i < p then sorted[i] else if i == p then j else sorted[i - 1];
      assert r[k] == if k < p then sorted[k] else if k == p then j else sorted[k - 1];
      if k == p {
        assert i < p - 1 ==> InOwnOrder(sorted[i], sorted[p - 1]) by {
          OwnOrderAt(sorted, i, p - 1);
        }
      } else if i != p {
        OwnOrderAt(sorted, if i < p then i else i - 1, if k < p then k else k - 1);
      }
    }
    OwnOrderAll(r);
  }

  ghost predicate InOwnOrder(l: JobInfo, r: JobInfo) {
    !Ahead(r, l)
  }

  lemma {:induction false} OwnOrderAt(jobs: seq<JobInfo>, i: int, k: int)
    requires SortedOwn(jobs)
    ensures 0 <= i < k < |jobs| ==> InOwnOrder(jobs[i], jobs[k])
  {
  }

  lemma {:induction false} OwnOrderAll(jobs: seq<JobInfo>)
    requires forall i, k :: 0 <= i < k < |jobs| ==> InOwnOrder(jobs[i], jobs[k])
    ensures SortedOwn(jobs)
  {
  }

  method RegenerateJobsByOwner(jobs: seq<JobInfo>) returns (owners: seq<Owner>)
    ensures IndexedSorted(jobs, owners)
  {
    hide Indexed, SortedOwn;
    owners := [];
    NothingIndexed();
    for n := 0 to |jobs|
      invariant Indexed(jobs[..n], owners)
    {
      assert jobs[..n + 1] == jobs[..n] + [jobs[n]];
      owners := AddToIndex(owners, jobs[n], jobs[..n]);
    }
    assert jobs[..|jobs|] == jobs;
    var total := |owners|;
    for a := 0 to total
      invariant |owners| == total && Indexed(jobs, owners)
      invariant forall b :: 0 <= b < a ==> SortedOwn(owners[b].jobs)
    {
      var sorted := SortOwn(owners[a].jobs);
      Rearranged(jobs, owners, a, sorted);
      owners := owners[a := owners[a].(jobs := sorted)];
    }
  }

  lemma {:induction false} NothingIndexed()
    ensures Indexed([], [])
  {
  }

  lemma {:induction false} Rearranged(jobs: seq<JobInfo>, owners: seq<Owner>, a: nat, own: seq<JobInfo>)
    requires Indexed(jobs, owners) && a < |owners| && multiset(own) == multiset(owners[a].jobs)
    ensures Indexed(jobs, owners[a := owners[a].(jobs := own)])
  {
    var after := owners[a := owners[a].(jobs := own)];
    assert |after| == |owners| && forall b :: 0 <= b < |owners| ==> after[b].account == owners[b].account;
    assert OwnJobs(jobs, after);
    forall i | 0 <= i < |jobs|
      ensures exists b :: 0 <= b < |after| && after[b].account == jobs[i].account
    {
      var b :| 0 <= b < |owners| && owners[b].account == jobs[i].account;
      assert after[b].account == jobs[i].account;
    }
  }

  /** Enters a job under its owner; a new owner is added. */
  method AddToIndex(owners: seq<Owner>, j: JobInfo, ghost jobs: seq<JobInfo>) returns (added: seq<Owner>)
    requires Indexed(jobs, owners)
    ensures Indexed(jobs + [j], added)
  {
    hide Indexed;
    var a := 0;
    while a < |owners| && owners[a].account != j.account
      invariant 0 <= a <= |owners|
      invariant forall b :: 0 <= b < a ==> owners[b].account != j.account
    {
      a := a + 1;
    }
    if a == |owners| {
      NewOwner(jobs, owners, j);
      added := owners + [Owner(j.account, [j])];
    } else {
      KnownOwner(jobs, owners, j, a);
      added := owners[a := owners[a].(jobs := owners[a].jobs + [j])];
    }
  }

  lemma {:induction false} JobsOfOneMore(jobs: seq<JobInfo>, j: JobInfo, account: string)
    ensures JobsOf(jobs + [j], account) == JobsOf(jobs, account) + if j.account == account then [j] else []
  {
    assert (jobs + [j])[..|jobs|] == jobs;
  }

  lemma {:induction false} NewOwner(jobs: seq<JobInfo>, owners: seq<Owner>, j: JobInfo)
    requires Indexed(jobs, owners) && forall a :: 0 <= a < |owners| ==> owners[a].account != j.account
    ensures Indexed(jobs + [j], owners + [Owner(j.account, [j])])
  {
    var all, added := jobs + [j], owners + [Owner(j.account, [j])];
    forall a | 0 <= a < |added|
      ensures multiset(added[a].jobs) == multiset(JobsOf(all, added[a].account))
    {
      JobsOfOneMore(jobs, j, added[a].account);
      if a == |owners| {
        NoJobsOf(jobs, j.account);
      }
    }
    forall i | 0 <= i < |all|
      ensures exists b :: 0 <= b < |added| && added[b].account == all[i].account
    {
      if i < |jobs| {
        var b :| 0 <= b < |owners| && owners[b].account == jobs[i].account;
        assert added[b].account == all[i].account;
      } else {
        assert added[|owners|].account == all[i].account;
      }
    }
  }

  lemma {:induction false} KnownOwner(jobs: seq<JobInfo>, owners: seq<Owner>, j: JobInfo, a: nat)
    requires Indexed(jobs, owners) && a < |owners| && owners[a].account == j.account
    ensures Indexed(jobs + [j], owners[a := owners[a].(jobs := owners[a].jobs + [j])])
  {
    hide OwnJobs, JobsOf;
    var all, added := jobs + [j], owners[a := owners[a].(jobs := owners[a].jobs + [j])];
    assert forall b :: 0 <= b < |owners| ==> added[b].account == owners[b].account;
    KnownOwnJobs(jobs, owners, j, a);
    forall i | 0 <= i < |all|
      ensures exists b :: 0 <= b < |added| && added[b].account == all[i].account
    {
      if i < |jobs| {
        var b :| 0 <= b < |owners| && owners[b].account == jobs[i].account;
        assert added[b].account == all[i].account;
      } else {
        assert added[a].account == all[i].account;
      }
    }
  }

  lemma {:induction false} KnownOwnJobs(jobs: seq<JobInfo>, owners: seq<Owner>, j: JobInfo, a: nat)
    requires OncePerOwner(owners) && OwnJobs(jobs, owners) && a < |owners| && owners[a].account == j.account
    ensures OwnJobs(jobs + [j], owners[a := owners[a].(jobs := owners[a].jobs + [j])])
  {
    var added := owners[a := owners[a].(jobs := owners[a].jobs + [j])];
    forall b | 0 <= b < |added|
      ensures multiset(added[b].jobs) == multiset(JobsOf(jobs + [j], added[b].account))
    {
      JobsOfOneMore(jobs, j, added[b].account);
      assert multiset(owners[b].jobs) == multiset(JobsOf(jobs, owners[b].account));
      assert b != a ==> added[b] == owners[b] && owners[b].account != j.account;
    }
  }

  lemma {:induction false} NoJobsOf(jobs: seq<JobInfo>, account: string)
    requires forall i :: 0 <= i < |jobs| ==> jobs[i].account != account
    ensures JobsOf(jobs, account) == []
  {
    if jobs != [] {
      NoJobsOf(jobs[..|jobs| - 1], account);
    }
  }

  // ----- picking from the index

  /** All jobs of an owner have the same shares. */
  ghost predicate SharedGinfo(jobs: seq<JobInfo>) {
    forall i, j :: 0 <= i < |jobs| && 0 <= j < |jobs| && jobs[i].account == jobs[j].account ==> jobs[i].ginfo == jobs[j].ginfo
  }

  /** Drops jobs from the front until one can run. */
  method PopIneligible(jobs: seq<JobInfo>) returns (rest: seq<JobInfo>)
    ensures exists n :: 0 <= n <= |jobs| && rest == jobs[n..] && forall i :: 0 <= i < n ==> !jobs[i].Eligible()
    ensures rest != [] ==> rest[0].Eligible()
  {
    rest := jobs;
    ghost var n := 0;
    while |rest| > 0 && (!rest[0].SuitableForRun() || rest[0].state == Running)
      invariant 0 <= n <= |jobs| && rest == jobs[n..]
      invariant forall i :: 0 <= i < n ==> !jobs[i].Eligible()
    {
      rest := rest[1..];
      n := n + 1;
    }
  }

  /** The first job of an owner that can run is the best one of that owner. */
  lemma {:induction false} FrontIsBest(own: seq<JobInfo>, rest: seq<JobInfo>)
    requires ValidShares(own) && SortedOwn(own)
    requires forall i, j :: 0 <= i < |own| && 0 <= j < |own| ==> own[i].ginfo == own[j].ginfo
    requires exists n :: 0 <= n <= |own| && rest == own[n..] && forall i :: 0 <= i < n ==> !own[i].Eligible()
    requires rest != [] ==> rest[0].Eligible()
    ensures rest == [] ==> forall i :: 0 <= i < |own| ==> !own[i].Eligible()
    ensures rest != [] ==> rest[0] in own && forall i :: 0 <= i < |own| && own[i].Eligible() ==> AtLeast(rest[0], own[i], true)
  {
    var n :| 0 <= n <= |own| && rest == own[n..] && forall i :: 0 <= i < n ==> !own[i].Eligible();
    if rest != [] {
      forall i | 0 <= i < |own| && own[i].Eligible()
        ensures AtLeast(rest[0], own[i], true)
      {
        assert i == n || !Ahead(own[i], own[n]);
      }
    }
  }

  /** The jobs of all owners, one owner after the other. */
  ghost function Flat(owners: seq<Owner>): seq<JobInfo> {
    if owners == [] then [] else Flat(owners[..|owners| - 1]) + owners[|owners| - 1].jobs
  }

  lemma {:induction false} FlatHas(owners: seq<Owner>, a: nat, i: nat)
    requires a < |owners| && i < |owners[a].jobs|
    ensures owners[a].jobs[i] in Flat(owners)
  {
    if a < |owners| - 1 {
      FlatHas(owners[..|owners| - 1], a, i);
    }
  }

  lemma {:induction false} FlatFrom(owners: seq<Owner>, p: nat) returns (a: nat)
    requires p < |Flat(owners)|
    ensures a < |owners| && Flat(owners)[p] in owners[a].jobs
  {
    var l := |owners| - 1;
    if p < |Flat(owners[..l])| {
      a := FlatFrom(owners[..l], p);
    } else {
      a := l;
    }
  }

  /** The index holds the jobs of the list, no others. */
  lemma {:induction false} FlatIsAll(jobs: seq<JobInfo>, owners: seq<Owner>)
    requires Indexed(jobs, owners)
    ensures forall p :: 0 <= p < |Flat(owners)| ==> Flat(owners)[p] in jobs
    ensures forall i :: 0 <= i < |jobs| ==> jobs[i] in Flat(owners)
  {
    forall p | 0 <= p < |Flat(owners)|
      ensures Flat(owners)[p] in jobs
    {
      var a := FlatFrom(owners, p);
      OwnFrom(jobs, owners, a, Flat(owners)[p]);
    }
    forall i | 0 <= i < |jobs|
      ensures jobs[i] in Flat(owners)
    {
      var a :| 0 <= a < |owners| && owners[a].account == jobs[i].account;
      JobsOfMembers(jobs, owners[a].account);
      assert jobs[i] in multiset(owners[a].jobs);
      var k :| 0 <= k < |owners[a].jobs| && owners[a].jobs[k] == jobs[i];
      FlatHas(owners, a, k);
    }
  }

  lemma {:induction false} OwnFrom(jobs: seq<JobInfo>, owners: seq<Owner>, a: nat, j: JobInfo)
    requires OwnJobs(jobs, owners) && a < |owners| && j in owners[a].jobs
    ensures j in jobs && j.account == owners[a].account
  {
    JobsOfMembers(jobs, owners[a].account);
    assert j in multiset(JobsOf(jobs, owners[a].account));
  }

  lemma {:induction false} SamePick(xs: seq<JobInfo>, ys: seq<JobInfo>, pick: Option<JobInfo>)
    requires ValidShares(xs) && ValidShares(ys) && BestPick(xs, true, pick)
    requires forall i :: 0 <= i < |xs| ==> xs[i] in ys
    requires forall i :: 0 <= i < |ys| ==> ys[i] in xs
    ensures BestPick(ys, true, pick)
  {
  }

  /** One more owner: the better one of the pick so far and the owner's best job. */
  lemma {:induction false} OneMoreOwner(xs: seq<JobInfo>, own: seq<JobInfo>, rest: seq<JobInfo>, pick: Option<JobInfo>, pick': Option<JobInfo>)
    requires ValidShares(xs) && ValidShares(own) && BestPick(xs, true, pick)
    requires rest == [] ==> forall i :: 0 <= i < |own| ==> !own[i].Eligible()
    requires rest != [] ==> rest[0] in own && rest[0].Eligible()
    requires rest != [] ==> forall i :: 0 <= i < |own| && own[i].Eligible() ==> AtLeast(rest[0], own[i], true)
    requires pick' == if rest != [] && InReach(rest[0], true) && (pick == None || !AtLeast(pick.value, rest[0], true))
                      then Some(rest[0]) else pick
    ensures ValidShares(xs + own) && BestPick(xs + own, true, pick')
  {
    var all := xs + own;
    if pick' == None {
      assert forall i :: 0 <= i < |all| ==> !InReach(all[i], true);
    } else {
      assert pick'.value in all;
      forall i | 0 <= i < |all| && InReach(all[i], true)
        ensures AtLeast(pick'.value, all[i], true)
      {
      }
    }
  }

  lemma {:induction false} OwnShares(jobs: seq<JobInfo>, owners: seq<Owner>, a: nat)
    requires Indexed(jobs, owners) && a < |owners| && ValidShares(jobs) && SharedGinfo(jobs)
    ensures ValidShares(owners[a].jobs)
    ensures forall i, j :: 0 <= i < |owners[a].jobs| && 0 <= j < |owners[a].jobs| ==> owners[a].jobs[i].ginfo == owners[a].jobs[j].ginfo
  {
    var own := owners[a].jobs;
    forall i | 0 <= i < |own|
      ensures own[i] in jobs && own[i].account == owners[a].account
    {
      OwnFrom(jobs, owners, a, own[i]);
    }
  }

  /** Picks the next job from the index: for every owner, only the first job that can run is looked at. */
  method ExtractByOwner(owners: seq<Owner>, ghost jobs: seq<JobInfo>) returns (max: Option<JobInfo>)
    requires IndexedSorted(jobs, owners) && ValidShares(jobs) && SharedGinfo(jobs)
    ensures BestPick(jobs, true, max)
    ensures max == None ==> forall i :: 0 <= i < |jobs| ==> !Waiting(jobs[i], true)
    ensures max.Some? ==> max.value in jobs && Waiting(max.value, true)
    ensures max.Some? ==> forall i :: 0 <= i < |jobs| && Waiting(jobs[i], true) ==> NoWorse(max.value, jobs[i], true)
  {
    hide SortedOwn, Indexed, SharedGinfo, Waiting, NoWorse;
    max := None;
    var maxValue: real, maxPriority := -1.0, -1;
    for a := 0 to |owners|
      invariant ValidShares(Flat(owners[..a])) && BestPick(Flat(owners[..a]), true, max)
      invariant max == None ==> maxValue == -1.0 && maxPriority == -1
      invariant max.Some? ==> maxValue == max.value.ginfo.Ratio() && maxPriority == max.value.queuePriority
    {
      assert owners[..a + 1][..a] == owners[..a];
      OwnShares(jobs, owners, a);
      var rest := PopIneligible(owners[a].jobs);
      FrontIsBest(owners[a].jobs, rest);
      ghost var was := max;
      if |rest| == 0 {
        OneMoreOwner(Flat(owners[..a]), owners[a].jobs, rest, was, max);
        continue;
      }
      var front := rest[0];
      assert front.ginfo.Ratio() >= 0.0;
      if front.queuePriority < maxPriority {
        OneMoreOwner(Flat(owners[..a]), owners[a].jobs, rest, was, max);
        continue;
      }
      if front.queuePriority > maxPriority {
        maxValue := -1.0;
        maxPriority := front.queuePriority;
      }
      var curValue := front.ginfo.Ratio();
      if maxValue < curValue {
        max := Some(front);
        maxValue := curValue;
      }
      OneMoreOwner(Flat(owners[..a]), owners[a].jobs, rest, was, max);
    }
    assert owners[..|owners|] == owners;
    FlatIsAll(jobs, owners);
    SamePick(Flat(owners), jobs, max);
    PickInFields(jobs, true, max);
  }

  /** Both ways of picking agree on an index made from the same jobs. */
  method ExtractBothWays(jobs: seq<JobInfo>) returns (scan: Option<JobInfo>, index: Option<JobInfo>)
    requires ValidShares(jobs) && SharedGinfo(jobs)
    ensures BestPick(jobs, true, scan) && BestPick(jobs, true, index)
    ensures scan == None <==> index == None
    ensures scan.Some? && index.Some? ==>
              scan.value.queuePriority == index.value.queuePriority && scan.value.ginfo.Ratio() == index.value.ginfo.Ratio()
  {
    scan := ExtractFromAll(jobs, true);
    var owners := RegenerateJobsByOwner(jobs);
    index := ExtractByOwner(owners, jobs);
    PicksAgree(jobs, scan, index);
  }

  // ----- the order of the job vector

  /** Running jobs first, then queued ones by ratio, then the others; ties by number. */
  predicate CompareFairshare(i: Option<JobInfo>, j: Option<JobInfo>)
    requires i.Some? ==> i.value.ginfo.Valid()
    requires j.Some? ==> j.value.ginfo.Valid()
  {
    if i == None || j == None then false
    else
      var a, b := i.value, j.value;
      if a.state == Running && b.state != Running then true
      else if a.state != Running && b.state == Running then false
      else if a.state == Running && b.state == Running then a.number < b.number
      else if a.state == Queued && b.state != Queued then true
      else if a.state != Queued && b.state == Queued then false
      else if a.state != Queued && b.state != Queued then a.number < b.number
      else
        var x, y := a.ginfo.Ratio(), b.ginfo.Ratio();
        if x > y then true else x == y && a.number < b.number
  }

  /** Jobs with valid shares. */
  type FairJob = j: JobInfo | j.ginfo.Valid()
    ghost witness JobInfo(0, 0, Queued, false, 0, 0, "", GroupInfo(0.0, 1.0), None, None, None)

  /**
   What comes first in the fields of the jobs: the running ones, then the queued ones,
   then the rest; among queued ones the larger share per usage; then the smaller number.
   */
  lemma {:induction false} CompareInFields(i: FairJob, j: FairJob)
    ensures i.state == Running && j.state != Running ==> CompareFairshare(Some(i), Some(j)) && !CompareFairshare(Some(j), Some(i))
    ensures i.state == Queued && j.state == OtherState ==> CompareFairshare(Some(i), Some(j)) && !CompareFairshare(Some(j), Some(i))
    ensures i.state == j.state != Queued ==> (CompareFairshare(Some(i), Some(j)) <==> i.number < j.number)
    ensures i.state == j.state == Queued ==>
              var x, y := i.ginfo.percentage * j.ginfo.tempUsage, j.ginfo.percentage * i.ginfo.tempUsage;
              CompareFairshare(Some(i), Some(j)) <==> x > y || (x == y && i.number < j.number)
  {
    RatioByShares(i.ginfo, j.ginfo);
    RatioByShares(j.ginfo, i.ginfo);
  }

  lemma {:induction false} CompareFairshareIsOrder()
    ensures StrictWeakOrder((i: FairJob, j: FairJob) => CompareFairshare(Some(i), Some(j)))
  {
  }

  ghost predicate TiedAt(js: seq<Option<FairJob>>, a: nat, b: nat)
    requires a < |js| && b < |js|
  {
    !CompareFairshare(js[a], js[b]) && !CompareFairshare(js[b], js[a])
  }

  /** The comparison orders this vector. */
  ghost predicate Orders(js: seq<Option<FairJob>>) {
    && (forall a :: 0 <= a < |js| ==> !CompareFairshare(js[a], js[a]))
    && (forall a, b, c :: 0 <= a < |js| && 0 <= b < |js| && 0 <= c < |js| ==>
          (CompareFairshare(js[a], js[b]) && CompareFairshare(js[b], js[c]) ==> CompareFairshare(js[a], js[c])))
    && (forall a, b, c :: 0 <= a < |js| && 0 <= b < |js| && 0 <= c < |js| ==>
          (TiedAt(js, a, b) && TiedAt(js, b, c) ==> TiedAt(js, a, c)))
  }

  /** A vector can be sorted exactly when it has no null, or when all its jobs are tied anyway. */
  lemma {:induction false} OrdersIff(js: seq<Option<FairJob>>)
    ensures Orders(js) <==> None !in js || forall a, b :: 0 <= a < |js| && 0 <= b < |js| ==> TiedAt(js, a, b)
  {
    if None in js {
      var n :| 0 <= n < |js| && js[n] == None;
      forall a, b | 0 <= a < |js| && 0 <= b < |js|
        ensures TiedAt(js, a, n) && TiedAt(js, n, b)
      {
      }
      assert Orders(js) ==> forall a, b :: 0 <= a < |js| && 0 <= b < |js| ==> TiedAt(js, a, n) && TiedAt(js, n, b) ==> TiedAt(js, a, b);
    } else {
      CompareFairshareIsOrder();
      var less := (i: FairJob, j: FairJob) => CompareFairshare(Some(i), Some(j));
      forall a, b, c | 0 <= a < |js| && 0 <= b < |js| && 0 <= c < |js|
        ensures TiedAt(js, a, b) && TiedAt(js, b, c) ==> TiedAt(js, a, c)
      {
        assert js[a] == Some(js[a].value) && js[b] == Some(js[b].value) && js[c] == Some(js[c].value);
      }
    }
  }
}
