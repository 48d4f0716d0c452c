/**
 Trying another order of the jobs and taking it back (plan_optimization.cpp):
 the order and the fixed nodes of a job are backed up, the list is rearranged and
 planned anew, and the backup is restored when the new plan is no better.
 */
module Optimization {
  import opened PlanLists
  import opened PlanJobs
  import opened Gaps
  import opened Limits
  import opened JobPlanning
  import opened PlanRebuild
  import opened JobOrder
  import opened PlanSafety
  import opened SlotTable
  import opened SchedUpdate

  // ----- the fixed nodes of a job

  function NoNames(n: nat): seq<Option<int>> {
    seq(n, i => None)
  }

  /** Moves the fixed nodes of a job to its backup. */
  method JobBackupFixnodes(job: Item<Job>)
    requires |job.value.fixedNames| == job.value.reqNumNodes
    modifies job`value
    ensures job.value == old(job.value).(fixedNames := NoNames(|old(job.value.fixedNames)|),
                                         fixedBackup := Some(old(job.value.fixedNames)))
  {
    var names, backup := job.value.fixedNames, [];
    for i := 0 to |names|
      invariant |names| == |old(job.value.fixedNames)| && backup == old(job.value.fixedNames)[..i]
      invariant forall j :: 0 <= j < |names| ==> names[j] == if j < i then None else old(job.value.fixedNames)[j]
    {
      backup := backup + [names[i]];
      names := names[i := None];
    }
    assert backup == old(job.value.fixedNames);
    job.value := job.value.(fixedNames := names, fixedBackup := Some(backup));
    assert names == NoNames(|names|);
  }

  /** A job with its backup restored; one without a backup stays as it is. */
  function WithFixnodes(job: Job): Job {
    if job.fixedBackup.Some? then job.(fixedNames := job.fixedBackup.value, fixedBackup := None) else job
  }

  method JobRestoreFixnodes(job: Item<Job>) returns (ok: bool)
    modifies job`value
    ensures job.value == WithFixnodes(old(job.value)) && ok == old(job.value.fixedBackup.Some?)
    ensures !ok ==> job.value == old(job.value)
    ensures ok ==> job.value == old(job.value).(fixedNames := old(job.value.fixedBackup.value), fixedBackup := None)
  {
    if job.value.fixedBackup.Some? {
      job.value := job.value.(fixedNames := job.value.fixedBackup.value);
      job.value := job.value.(fixedBackup := None);
      return true;
    }
    ok := false;
  }

  // ----- the order of the jobs

  /** A backup array: the items and a null behind them. */
  ghost predicate Saved(backup: array<Item?<Job>>, items: seq<Item<Job>>)
    reads backup
  {
    && backup.Length == |items| + 1 && backup[|items|] == null
    && forall i :: 0 <= i < |items| ==> backup[i] == items[i]
  }

  method BackupJobOrder(jobs: PlanList<Job>) returns (backup: array?<Item?<Job>>)
    requires jobs.Valid()
    modifies jobs`current
    ensures jobs.Valid() && jobs.items == old(jobs.items) && jobs.Values() == old(jobs.Values())
    ensures if jobs.items == [] then backup == null else backup != null && fresh(backup) && Saved(backup, jobs.items)
  {
    if jobs.numItems == 0 {
      return null;
    }
    var n := jobs.numItems;
    backup := new Item?<Job>[1 + n](_ => null);
    jobs.current := null;
    for i := 0 to n
      invariant jobs.Valid() && jobs.items == old(jobs.items) && n == |jobs.items|
      invariant jobs.current == if i > 0 then jobs.items[i - 1] else null
      invariant forall j :: 0 <= j < i ==> backup[j] == jobs.items[j]
    {
      StepOn(jobs, i);
      backup[i] := jobs.current;
    }
    backup[n] := null;
  }

  /** Steps to position k from the one in front of it, or from no item to the first one. */
  method StepOn(jobs: PlanList<Job>, ghost k: nat)
    requires jobs.Valid() && k < |jobs.items| && jobs.current == if k > 0 then jobs.items[k - 1] else null
    modifies jobs`current
    ensures jobs.Valid() && jobs.current == jobs.items[k]
  {
    assert k > 0 ==> IndexOf(jobs.items, jobs.current) == k - 1;
    var _ := jobs.GetNext();
  }

  /**
   Rebuilds the list from a backup, whatever its links are by now: they need not
   even form a list. The order is the saved one, and jobs that have a backup of
   their fixed nodes get them back.
   */
  method RestoreJobOrder(jobs: PlanList<Job>, backup: array?<Item?<Job>>, ghost items: seq<Item<Job>>) returns (r: int)
    requires backup != null ==> Saved(backup, items) && Distinct(items)
    modifies jobs, items
    ensures old(jobs.numItems) == 0 || backup == null ==>
              r == 0 && unchanged(jobs) && forall i :: 0 <= i < |items| ==> unchanged(items[i])
    ensures old(jobs.numItems) != 0 && backup != null ==>
              && jobs.Valid() && jobs.items == items && r == |items| && jobs.current == null
              && forall i :: 0 <= i < |items| ==> items[i].value == WithFixnodes(old(items[i].value))
    ensures old(jobs.numItems) != 0 && backup != null ==>
              forall i :: 0 <= i < |items| ==>
                if old(items[i].value).fixedBackup == None then items[i].value == old(items[i].value)
                else items[i].value == old(items[i].value).(fixedNames := old(items[i].value).fixedBackup.value, fixedBackup := None)
  {
    if jobs.numItems == 0 || backup == null {
      return 0;
    }
    jobs.numItems, jobs.current, jobs.first, jobs.last, jobs.items := 0, null, null, null, [];
    assert jobs.Valid();
    hide PlanList.Valid;
    var i := 0;
    while backup[i] != null
      invariant 0 <= i <= |items| && Saved(backup, items)
      invariant jobs.Valid() && jobs.items == items[..i] && jobs.current == null
      invariant forall j :: 0 <= j < |items| ==>
                  items[j].value == if j < i then WithFixnodes(old(items[j].value)) else old(items[j].value)
      decreases |items| - i
    {
      var item := backup[i];
      RelinkBehind(jobs, item, i);
      var _ := JobRestoreFixnodes(item);
      i := i + 1;
    }
    r := jobs.numItems;
  }

  /** Links an item behind the last one of the rebuilt part. */
  method RelinkBehind(jobs: PlanList<Job>, item: Item<Job>, i: nat)
    requires jobs.Valid() && i == |jobs.items| && item !in jobs.items
    modifies jobs`first, jobs`last, jobs`numItems, jobs`items, jobs.items`successor, item`successor, item`predecessor
    ensures jobs.Valid() && jobs.items == old(jobs.items) + [item]
  {
    if i == 0 {
      jobs.first := item;
      jobs.last := item;
      item.predecessor := null;
      item.successor := null;
    } else {
      jobs.last.successor := item;
      item.predecessor := jobs.last;
      item.successor := null;
      jobs.last := item;
    }
    jobs.numItems := jobs.numItems + 1;
    jobs.items := jobs.items + [item];
  }

  // ----- trying a move

  /** Takes a job out of the list, with its fixed nodes moved to the backup. */
  method SetAside(jobs: PlanList<Job>, job: Item<Job>, ghost k: nat, ghost cfg: Config)
    requires jobs.Valid() && k < |jobs.items| && jobs.items[k] == job && AllAdmissible(jobs.Values(), cfg)
    requires |job.value.fixedNames| == job.value.reqNumNodes
    modifies jobs, jobs.items`successor, jobs.items`predecessor, job`value
    ensures jobs.Valid() && jobs.items == Delete(old(jobs.items), k) && job !in jobs.items
    ensures AllAdmissible(jobs.Values(), cfg) && Admissible(job.value, cfg)
    ensures job.successor == null && job.predecessor == null
    ensures job.value.fixedBackup == Some(old(job.value.fixedNames))
  {
    hide Admissible;
    assert Admissible(jobs.Values()[k], cfg);
    ghost var was := job.value;
    assert IndexOf(jobs.items, job) == k;
    JobBackupFixnodes(job);
    BackedUpAdmissible(was, job.value, cfg);
    jobs.RemoveItem(job, false);
  }

  lemma {:induction false} BackedUpAdmissible(was: Job, job: Job, cfg: Config)
    requires Admissible(was, cfg) && |job.fixedNames| == |was.fixedNames|
    requires job == was.(fixedNames := job.fixedNames, fixedBackup := job.fixedBackup)
    ensures Admissible(job, cfg)
  {
  }

  /** Puts a job behind the item at some position, or to the front. */
  method PutSomewhere(jobs: PlanList<Job>, job: Item<Job>, position: int, ghost cfg: Config)
    requires jobs.Valid() && job !in jobs.items && job.successor == null && job.predecessor == null
    requires AllAdmissible(jobs.Values(), cfg) && Admissible(job.value, cfg)
    modifies jobs, jobs.items`successor, jobs.items`predecessor, job`successor, job`predecessor
    ensures jobs.Valid() && AllAdmissible(jobs.Values(), cfg)
    ensures exists at :: 0 <= at <= |old(jobs.items)| && jobs.items == Insert(old(jobs.items), at, job)
  {
    hide AllAdmissible, Admissible, PlanList.Valid;
    ghost var items, js := jobs.items, jobs.Values();
    var behind := jobs.GetItem(position);
    ghost var at: nat := 0;
    if behind != null {
      at := position + 1;
      PutBehind(jobs, behind, job, position);
    } else {
      PutFirst(jobs, job);
      assert jobs.items == Insert(items, 0, job) && jobs.Values() == Insert(js, 0, job.value);
    }
    assert jobs.items == Insert(items, at, job);
    InsertedAdmissible(js, at, job.value, cfg);
  }

  lemma {:induction false} InsertedAdmissible(js: seq<Job>, at: nat, job: Job, cfg: Config)
    requires AllAdmissible(js, cfg) && Admissible(job, cfg) && at <= |js|
    ensures AllAdmissible(Insert(js, at, job), cfg)
  {
    hide Admissible;
    var r := Insert(js, at, job);
    assert forall i :: 0 <= i < |r| ==> r[i] == if i < at then js[i] else if i == at then job else js[i - 1];
  }

  lemma {:induction false} Inserted<X>(xs: seq<X>, at: nat, x: X)
    requires at <= |xs|
    ensures |Insert(xs, at, x)| == |xs| + 1
    ensures forall i :: 0 <= i < |Insert(xs, at, x)| ==> Insert(xs, at, x)[i] in xs + [x]
    ensures exists i :: 0 <= i < |Insert(xs, at, x)| && Insert(xs, at, x)[i] == x
    ensures forall y :: y in xs ==> y in Insert(xs, at, x)
  {
    assert Insert(xs, at, x)[at] == x;
    assert xs == xs[..at] + xs[at..];
  }

  /** Plans everything anew; false when a job was dropped. */
  method Replan(jobs: PlanList<Job>, nodes: seq<Node>, cfg: Config, fit: (nat, nat, nat) -> Fitness, attempt: nat, now: int)
    returns (ok: bool)
    requires jobs.Valid() && cfg.Valid() && ValidNodes(nodes) && now >= 0 && AllAdmissible(jobs.Values(), cfg)
    modifies jobs, jobs.items
    ensures jobs.Valid() && AllAdmissible(jobs.Values(), cfg)
    ensures forall i :: 0 <= i < |jobs.items| ==> jobs.items[i] in old(jobs.items)
    ensures forall i :: 0 <= i < |old(jobs.items)| ==>
              old(jobs.items)[i].value.fixedBackup == old(jobs.items[i].value.fixedBackup)
    ensures ok ==> |jobs.items| == |old(jobs.items)| && multiset(jobs.items) == multiset(old(jobs.items))
    ensures ok ==> forall it :: it in old(jobs.items) ==> NamesHeld(old(it.value), it.value)
  {
    hide AllAdmissible, Admissible, PlanList.Valid, SafePlan, Dropped, Replanned, Finished, IsAborted, NamesHeld, PassedOn, PassedJobs, OthersStay, FixedKept, RequestsKept,
         SameRequest, FitOf;
    PassedLength(jobs.Values(), now);
    ghost var items, was := jobs.items, jobs.Values();
    var r, limits, gaps;
    ghost var k;
    r, limits, gaps, k := UpdateSched(jobs, nodes, cfg, FitOf(fit, attempt), now);
    BackupsKept(items, was);
    ok := r == 0;
    if ok {
      assert |jobs.items| == |multiset(jobs.items)| == |multiset(items)| == |items|;
      FinishedHoldsNames(nodes, now, items, was, jobs.items, jobs.Values(), gaps.Values(), limits.Values(), FitOf(fit, attempt), cfg);
      assert forall i :: 0 <= i < |items| ==> was[i] == old(items[i].value);
    }
  }

  lemma {:induction false} BackupsKept(items: seq<Item<Job>>, was: seq<Job>)
    requires |items| == |was| && RequestsKept(items, was)
    ensures forall i :: 0 <= i < |items| ==> items[i].value.fixedBackup == was[i].fixedBackup
  {
  }

  /** Moves a job to another position, and plans everything anew, before and after. */
  method MoveAndReplan(jobs: PlanList<Job>, job: Item<Job>, position: int, nodes: seq<Node>, cfg: Config,
                       fit: (nat, nat, nat) -> Fitness, now: int, ghost k: nat) returns (ok: bool)
    requires jobs.Valid() && k < |jobs.items| && jobs.items[k] == job && |job.value.fixedNames| == job.value.reqNumNodes
    requires cfg.Valid() && ValidNodes(nodes) && now >= 0 && AllAdmissible(jobs.Values(), cfg)
    modifies jobs, jobs.items
    ensures ok ==> jobs.numItems != 0 && job.value.fixedBackup == Some(old(job.value.fixedNames))
    ensures ok ==> forall it :: it in old(jobs.items) && it != job ==> NamesHeld(old(it.value), it.value)
  {
    hide AllAdmissible, Admissible, PlanList.Valid, Delete, Insert, NamesHeld;
    ghost var items := jobs.items;
    Deleted(items, k);
    OthersRemain(items, k);
    SetAside(jobs, job, k, cfg);
    ghost var rest := jobs.items;
    ok := Replan(jobs, nodes, cfg, fit, 0, now);
    if !ok {
      return;
    }
    label Between:
    SameMembers(jobs.items, rest);
    ok := PutAndReplan(jobs, job, position, nodes, cfg, fit, now);
    if ok {
      forall it | it in items && it != job
        ensures NamesHeld(old(it.value), it.value)
      {
        NamesHeldTwice(old(it.value), old@Between(it.value), it.value);
      }
    }
  }

  lemma {:induction false} SameMembers<X>(xs: seq<X>, ys: seq<X>)
    requires multiset(xs) == multiset(ys)
    ensures forall x :: x in xs <==> x in ys
  {
    forall x
      ensures x in xs <==> x in ys
    {
      assert x in multiset(xs) <==> x in multiset(ys);
    }
  }

  lemma {:induction false} OthersRemain<X>(xs: seq<X>, k: nat)
    requires k < |xs|
    ensures forall x :: x in xs && x != xs[k] ==> x in Delete(xs, k)
  {
    forall x | x in xs && x != xs[k]
      ensures x in Delete(xs, k)
    {
      var i :| 0 <= i < |xs| && xs[i] == x;
      assert Delete(xs, k)[if i < k then i else i - 1] == x;
    }
  }

  /** Puts a job back into the list and plans everything anew. */
  method PutAndReplan(jobs: PlanList<Job>, job: Item<Job>, position: int, nodes: seq<Node>, cfg: Config,
                      fit: (nat, nat, nat) -> Fitness, now: int) returns (ok: bool)
    requires jobs.Valid() && job !in jobs.items && job.successor == null && job.predecessor == null
    requires cfg.Valid() && ValidNodes(nodes) && now >= 0 && AllAdmissible(jobs.Values(), cfg) && Admissible(job.value, cfg)
    modifies jobs, jobs.items, job
    ensures ok ==> jobs.numItems != 0 && job.value.fixedBackup == old(job.value.fixedBackup)
    ensures ok ==> forall it :: it in old(jobs.items) ==> NamesHeld(old(it.value), it.value)
  {
    hide AllAdmissible, Admissible, PlanList.Valid, Delete, Insert, NamesHeld;
    ghost var rest := jobs.items;
    PutSomewhere(jobs, job, position, cfg);
    ghost var at :| 0 <= at <= |rest| && jobs.items == Insert(rest, at, job);
    Inserted(rest, at, job);
    ok := Replan(jobs, nodes, cfg, fit, 1, now);
    ListLength(jobs);
  }

  lemma {:induction false} Deleted<X>(xs: seq<X>, k: nat)
    requires k < |xs|
    ensures forall i :: 0 <= i < |Delete(xs, k)| ==> Delete(xs, k)[i] in xs
  {
  }

  lemma {:induction false} ListLength(jobs: PlanList<Job>)
    requires jobs.Valid()
    ensures jobs.numItems == |jobs.items|
  {
  }

  /**
   Moves a job to another position, plans everything anew, before and after, and
   takes it all back. Unless a job had to be dropped, the list has its old order
   again, and the job its fixed nodes. Of the other jobs those with a backup get it,
   fixed ones stay fixed, and queued ones that were not fixed are fixed from now on.
   */
  method TryMoveAndRestore(jobs: PlanList<Job>, job: Item<Job>, position: int, nodes: seq<Node>, cfg: Config,
                           fit: (nat, nat, nat) -> Fitness, now: int, ghost k: nat) returns (kept: bool)
    requires jobs.Valid() && k < |jobs.items| && jobs.items[k] == job && |job.value.fixedNames| == job.value.reqNumNodes
    requires cfg.Valid() && ValidNodes(nodes) && now >= 0 && AllAdmissible(jobs.Values(), cfg)
    modifies jobs, jobs.items
    ensures kept ==> jobs.Valid() && jobs.items == old(jobs.items)
    ensures kept ==> job.value.fixedNames == old(job.value.fixedNames) && job.value.fixedBackup == None
    ensures kept ==> forall it :: it in jobs.items && it != job ==>
              && it.value.fixedBackup == None
              && if old(it.value).fixedBackup.Some? then it.value.fixedNames == old(it.value).fixedBackup.value
                 else if None !in old(it.value).fixedNames || old(it.value).state != Queued then it.value.fixedNames == old(it.value).fixedNames
                 else None !in it.value.fixedNames
  {
    hide AllAdmissible, Admissible, PlanList.Valid;
    ghost var items := jobs.items;
    DistinctItems(jobs);
    var backup := BackupJobOrder(jobs);
    kept := MoveAndReplan(jobs, job, position, nodes, cfg, fit, now, k);
    if kept {
      var n := RestoreJobOrder(jobs, backup, items);
    }
  }

  lemma {:induction false} DistinctItems(jobs: PlanList<Job>)
    requires jobs.Valid()
    ensures Distinct(jobs.items)
  {
  }
}
