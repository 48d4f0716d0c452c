/**
 How the order of the jobs decides what the limits guarantee: the total limit of a
 class needs running jobs in front of planned ones, the limit of an account needs
 accounts that come in ascending order. Both conditions are exact.
 */
module LimitOrder {
  import opened PlanLists
  import opened PlanJobs
  import opened Limits
  import opened LimitRuns

  // ----- runs in which most jobs are alone

  function Lone(state: JobState, id: int, n: int, start: int, completion: int): Job {
    Job(0, state, 0, 0, "", id, 0, n, n, 1, completion - start, start, completion, [None], None, [], [], [])
  }

  /** When a planned job that is left alone begins. */
  function Private(i: nat): int {
    100 + 10 * i
  }

  /** A job that meets no planned one: a running job that completes at instant 1, or one that is planned much later. */
  function Other(state: JobState, id: int, i: nat): Job {
    if state == Running then Lone(Running, id, 1, -1, 1) else Lone(state, id, 1, Private(i), Private(i) + 5)
  }

  /** Who holds what: the state and the account of a job. */
  datatype Holder = Holder(state: JobState, id: int)

  function HolderOf(job: Job): Holder {
    Holder(job.state, job.accountId)
  }

  function HoldersOf(js: seq<Job>): (hs: seq<Holder>)
    ensures |hs| == |js| && forall a :: 0 <= a < |js| ==> hs[a] == HolderOf(js[a])
  {
    seq(|js|, a requires 0 <= a < |js| => HolderOf(js[a]))
  }

  predicate HoldsCpus(h: Holder) {
    h.state == Queued || h.state == Running
  }

  /** No job of the list holds anything at an instant, except those at two positions. */
  ghost predicate OnlyAt(js: seq<Job>, p: nat, q: nat, t: int) {
    forall i :: 0 <= i < |js| && i != p && i != q ==> !Covers(js[i], t)
  }

  lemma {:induction false} SumOfTwo(js: seq<Job>, p: nat, q: nat, kind: Kind, t: int, who: Who, c: nat, cfg: Config)
    requires p < q && OnlyAt(js, p, q, t)
    ensures SumOf(js, kind, t, who, c, cfg) ==
            (if p < |js| then AmountOf(js[p], kind, t, who, c, cfg) else 0) +
            (if q < |js| then AmountOf(js[q], kind, t, who, c, cfg) else 0)
  {
    hide WalltimeClass;
    if js != [] {
      SumOfTwo(js[..|js| - 1], p, q, kind, t, who, c, cfg);
    }
  }

  lemma {:induction false} AccountsOfTwo(js: seq<Job>, p: nat, q: nat, t: int, cfg: Config)
    requires p < q && OnlyAt(js, p, q, t)
    requires p < |js| ==> Covers(js[p], t)
    requires q < |js| ==> Covers(js[q], t)
    ensures AccountsOf(js, t, cfg) ==
            if |js| <= p then []
            else if |js| <= q then Charged([], js[p].accountId, ClassOf(js[p], cfg), js[p].Cpus())
            else Charged(Charged([], js[p].accountId, ClassOf(js[p], cfg), js[p].Cpus()), js[q].accountId, ClassOf(js[q], cfg), js[q].Cpus())
  {
    hide WalltimeClass, Charged;
    if js != [] {
      AccountsOfTwo(js[..|js| - 1], p, q, t, cfg);
    }
  }

  lemma {:induction false} NothingHeld(js: seq<Job>, t: int, cfg: Config)
    requires forall i :: 0 <= i < |js| ==> !Covers(js[i], t)
    ensures AccountsOf(js, t, cfg) == []
  {
    if js != [] {
      NothingHeld(js[..|js| - 1], t, cfg);
    }
  }

  /** A job that meets no other one is admitted when it fits the total limit by itself. */
  lemma {:induction false} LoneAdmitted(js: seq<Job>, job: Job, cfg: Config)
    requires cfg.Valid() && job.Cpus() > 0 && job.startTime < job.completionTime == job.startTime + job.estimatedProcessing
    requires ClassOf(job, cfg) < |cfg.thresholds| && job.Cpus() <= cfg.total[ClassOf(job, cfg)]
    requires forall t, i :: 0 <= i < |js| && job.startTime <= t < job.completionTime ==> !Covers(js[i], t)
    ensures Admitted(js, job, cfg)
  {
    hide WalltimeClass;
    forall t | job.startTime <= t < job.startTime + job.estimatedProcessing
      ensures !Exceeded(AccountsOf(js, t, cfg), RequestOf(job, cfg), cfg)
    {
      NothingHeld(js, t, cfg);
    }
  }

  /** A planned job that nothing refuses begins at the least start from its own on. */
  lemma {:induction false} TimelyAlone(js: seq<Job>, job: Job, cfg: Config, now: int)
    requires cfg.Valid() && Admitted(js, job, cfg)
    requires job.state == Running ==> job.startTime <= now < job.completionTime
    requires job.state == Queued ==> now <= job.startTime
    ensures Timely(js, job, cfg, now)
  {
    hide WalltimeClass, BlockedAt;
    assert job.state == Queued ==> LeastUnblocked(js, job.startTime, job.startTime, RequestOf(job, cfg), cfg);
  }

  // ----- running jobs behind planned ones

  function BusyCfg(): (cfg: Config)
    ensures cfg.Valid()
  {
    Config([100], [3], [3])
  }

  /** A planned job that fills the limit, a running one behind it that overlaps it, all others alone. */
  function LateRunning(states: seq<JobState>, p: nat, q: nat): (js: seq<Job>)
    ensures |js| == |states|
    ensures forall i :: 0 <= i < |js| ==>
              js[i] == if i == p then Lone(Queued, 0, 3, 1, 10) else if i == q then Lone(Running, 0, 2, -5, 5) else Other(states[i], 0, i)
  {
    seq(|states|, i requires 0 <= i < |states| =>
      if i == p then Lone(Queued, 0, 3, 1, 10) else if i == q then Lone(Running, 0, 2, -5, 5) else Other(states[i], 0, i))
  }

  lemma {:induction false} ClassIsFirst(job: Job, cfg: Config)
    requires cfg.thresholds != [] && job.completionTime - job.startTime <= cfg.thresholds[0]
    ensures ClassOf(job, cfg) == 0
  {
  }

  lemma {:induction false} RunningAdmitted(js: seq<Job>, job: Job, cfg: Config)
    requires cfg.Valid() && job.Cpus() > 0 && job.state == Running
    requires job.startTime < job.completionTime && ClassOf(job, cfg) < NUM_LIMITS
    ensures Admitted(js, job, cfg)
  {
    hide WalltimeClass;
  }

  lemma {:induction false} LateRunningAdmits(states: seq<JobState>, p: nat, q: nat, a: nat)
    requires p < q < |states| && states[p] == Queued && states[q] == Running && a < |states|
    ensures Admitted(LateRunning(states, p, q)[..a], LateRunning(states, p, q)[a], BusyCfg())
    ensures Timely(LateRunning(states, p, q)[..a], LateRunning(states, p, q)[a], BusyCfg(), 0)
  {
    hide BlockedAt, ClassOf, LateRunning, Admitted, Timely;
    var js, cfg := LateRunning(states, p, q), BusyCfg();
    var job := js[a];
    if a == q {
      assert job == Lone(Running, 0, 2, -5, 5);
    } else if a == p {
      assert job == Lone(Queued, 0, 3, 1, 10);
    } else {
      assert job == Other(states[a], 0, a);
    }
    ClassIsFirst(job, cfg);
    if job.state == Running {
      RunningAdmitted(js[..a], job, cfg);
    } else {
      forall t, i | 0 <= i < a && job.startTime <= t < job.completionTime
        ensures !Covers(js[..a][i], t)
      {
        assert js[..a][i] == js[i];
      }
      LoneAdmitted(js[..a], job, cfg);
    }
    TimelyAlone(js[..a], job, cfg, 0);
  }

  lemma {:induction false} LateRunningIsRun(states: seq<JobState>, p: nat, q: nat)
    requires p < q < |states| && states[p] == Queued && states[q] == Running
    ensures RunAt(LateRunning(states, p, q), BusyCfg(), 0)
  {
    hide Admitted, Timely, LateRunning;
    forall a | 0 <= a < |states|
      ensures Admitted(LateRunning(states, p, q)[..a], LateRunning(states, p, q)[a], BusyCfg())
      ensures Timely(LateRunning(states, p, q)[..a], LateRunning(states, p, q)[a], BusyCfg(), 0)
    {
      LateRunningAdmits(states, p, q, a);
    }
  }

  lemma {:induction false} LateRunningFits(states: seq<JobState>, p: nat, q: nat)
    requires p < q < |states|
    ensures EachFits(LateRunning(states, p, q), Everyone, 0, BusyCfg())
  {
    hide WalltimeClass, LateRunning;
  }

  lemma {:induction false} ExceedsAt(js: seq<Job>, t: int, c: nat, cfg: Config)
    requires cfg.Valid() && c < |cfg.total| && Cap(js, Everyone, c, cfg) >= 0
    requires SumOf(js, All, t, Everyone, c, cfg) > Cap(js, Everyone, c, cfg)
    requires SumOf(js, All, t, Everyone, c, cfg) > SumOf(js, OnlyRunning, t, Everyone, c, cfg)
    ensures !AllWithinCap(js, cfg)
  {
    assert !AllWithinCapAt(js, t, c, cfg);
  }

  /** Five CPUs are held at instant 1, where running jobs hold two and the limit allows three. */
  lemma {:induction false} LateRunningSums(states: seq<JobState>, p: nat, q: nat)
    requires p < q < |states| && states[p] == Queued && states[q] == Running
    ensures !AllWithinCap(LateRunning(states, p, q), BusyCfg())
  {
    hide ClassOf, LateRunning, SumOf, Cap, AllWithinCap, AllWithinCapAt;
    var js, cfg := LateRunning(states, p, q), BusyCfg();
    assert OnlyAt(js, p, q, 1);
    assert js[p] == Lone(Queued, 0, 3, 1, 10) && js[q] == Lone(Running, 0, 2, -5, 5);
    ClassIsFirst(js[p], cfg);
    ClassIsFirst(js[q], cfg);
    SumOfTwo(js, p, q, All, 1, Everyone, 0, cfg);
    SumOfTwo(js, p, q, OnlyRunning, 1, Everyone, 0, cfg);
    LateRunningFits(states, p, q);
    CapIsLimitIff(js, Everyone, 0, cfg);
    ExceedsAt(js, 1, 0, cfg);
  }

  /** For every order with a running job behind a planned one there is a run that breaks the limit. */
  lemma {:induction false} LateRunningExceeds(states: seq<JobState>, p: nat, q: nat)
    requires p < q < |states| && states[p] == Queued && states[q] == Running
    ensures RunAt(LateRunning(states, p, q), BusyCfg(), 0) && !AllWithinCap(LateRunning(states, p, q), BusyCfg())
  {
    hide RunAt, AllWithinCap, LateRunning;
    LateRunningIsRun(states, p, q);
    LateRunningSums(states, p, q);
  }

  /**
   Jobs in an order of states keep the cap of all jobs together, in every run, if
   and only if no running job stands behind a planned one.
   */
  lemma {:induction false} RunningFirstIff(states: seq<JobState>)
    ensures RunningFirst(states) <==>
            forall js, cfg: Config, now :: cfg.Valid() && RunAt(js, cfg, now) && StatesOf(js) == states ==> AllWithinCap(js, cfg)
  {
    hide LimitRun, Timely, AllWithinCap, LateRunning;
    if RunningFirst(states) {
      forall js, cfg: Config, now | cfg.Valid() && RunAt(js, cfg, now) && StatesOf(js) == states
        ensures AllWithinCap(js, cfg)
      {
        AllWithinCapBy(js, cfg);
      }
    } else {
      var p: nat, q: nat :| p < q < |states| && states[q] == Running && states[p] == Queued;
      LateRunningExceeds(states, p, q);
      assert StatesOf(LateRunning(states, p, q)) == states;
    }
  }

  lemma {:induction false} AllWithinCapBy(js: seq<Job>, cfg: Config)
    requires cfg.Valid() && LimitRun(js, cfg) && RunningFirst(StatesOf(js))
    ensures AllWithinCap(js, cfg)
  {
    forall t, c | 0 <= c < |cfg.total|
      ensures AllWithinCapAt(js, t, c, cfg)
    {
      AllKeepCap(js, t, c, cfg);
    }
  }

  /** Nothing delays the first job, however large it is. */
  lemma {:induction false} FirstIsNotDelayed(job: Job, s0: int, cfg: Config)
    requires cfg.Valid() && job.Cpus() > 0 && job.estimatedProcessing > 0
    requires job.state == Queued && job.startTime == s0 && job.completionTime == s0 + job.estimatedProcessing
    requires ClassOf(job, cfg) < |cfg.thresholds|
    ensures EarliestStart([], s0, job.startTime, RequestOf(job, cfg), cfg) && LimitRun([job], cfg)
  {
    hide WalltimeClass;
    assert [job][..0] == [];
  }

  /** A planned job that exceeds its limit alone is not delayed where nothing is recorded. */
  lemma {:induction false} TooLargeIsPlanned()
    ensures var js, cfg := [Lone(Queued, 0, 5, 0, 10)], BusyCfg();
            && EarliestStart([], 0, 0, RequestOf(js[0], cfg), cfg) && LimitRun(js, cfg)
            && SumOf(js, OnlyQueued, 0, Everyone, 0, cfg) > cfg.total[0]
  {
    var js, cfg := [Lone(Queued, 0, 5, 0, 10)], BusyCfg();
    hide ClassOf, EarliestStart, LimitRun, SumOf;
    ClassIsFirst(js[0], cfg);
    FirstIsNotDelayed(js[0], 0, cfg);
    SumAtLeastOne(js, 0, 0, Everyone, 0, cfg);
  }

  // ----- accounts that come in descending order

  /**
   No planned job belongs to one of two accounts that come in descending order
   in front of it.
   */
  ghost predicate Ascends(hs: seq<Holder>) {
    forall a, b, c :: 0 <= a < b < c < |hs| && HoldsCpus(hs[a]) && HoldsCpus(hs[b]) && hs[c].state == Queued ==>
      !(hs[b].id < hs[a].id && (hs[c].id == hs[a].id || hs[c].id == hs[b].id))
  }

  /** Every planned job finds room under the limit of its own account. */
  ghost predicate UserRoom(js: seq<Job>, cfg: Config)
    requires cfg.Valid() && LimitRun(js, cfg)
  {
    forall id :: KeepsRoom(js, Only(id), cfg)
  }

  /** The first of the jobs that hold something at an instant. */
  ghost predicate FirstHolder(js: seq<Job>, t: int, a: nat) {
    && a < |js| && Covers(js[a], t)
    && forall b :: 0 <= b < a ==> !Covers(js[b], t)
  }

  /** The accounts are in order apart from the first one, which belongs to the first holder. */
  lemma {:induction false} AccountsOrdered(js: seq<Job>, t: int, cfg: Config) returns (a: nat)
    ensures Ordered(AccountsOf(js, t, cfg))
    ensures var accounts := AccountsOf(js, t, cfg);
            accounts != [] ==> FirstHolder(js, t, a) && accounts[0].id == js[a].accountId
    ensures AccountsOf(js, t, cfg) == [] ==> forall b :: 0 <= b < |js| ==> !Covers(js[b], t)
  {
    hide Charged, Ordered, WalltimeClass;
    a := 0;
    if js != [] {
      var l := |js| - 1;
      a := AccountsOrdered(js[..l], t, cfg);
      if Covers(js[l], t) {
        ChargedOrdered(AccountsOf(js[..l], t, cfg), js[l].accountId, ClassOf(js[l], cfg), js[l].Cpus());
        if AccountsOf(js[..l], t, cfg) == [] {
          a := l;
        }
      }
    } else {
      assert Ordered([]) by {
        EmptyIsOrdered();
      }
    }
  }

  lemma {:induction false} EmptyIsOrdered()
    ensures Ordered([]) && SortedIds([])
  {
  }

  /** Where no account comes below the one of the first holder, all of them are in order. */
  lemma {:induction false} AccountsSorted(js: seq<Job>, t: int, cfg: Config, id: int)
    requires forall b :: 0 <= b < |js| && Covers(js[b], t) ==> id <= js[b].accountId
    requires AccountsOf(js, t, cfg) != [] ==> AccountsOf(js, t, cfg)[0].id == id
    ensures SortedIds(AccountsOf(js, t, cfg))
  {
    hide Charged, SortedIds, Ordered, WalltimeClass;
    EmptyIsOrdered();
    if js != [] {
      var l := |js| - 1;
      var before := AccountsOf(js[..l], t, cfg);
      if Covers(js[l], t) {
        var a := AccountsOrdered(js[..l], t, cfg);
        ChargedOrdered(before, js[l].accountId, ClassOf(js[l], cfg), js[l].Cpus());
        AccountsSorted(js[..l], t, cfg, id);
        ChargedSorted(before, js[l].accountId, ClassOf(js[l], cfg), js[l].Cpus());
      } else {
        AccountsSorted(js[..l], t, cfg, id);
      }
    }
  }

  /** Ascending accounts are found. */
  lemma {:induction false} AscendingFinds(js: seq<Job>, t: int, cfg: Config, id: int, k: nat)
    requires k < |js| && Covers(js[k], t) && js[k].accountId == id
    requires forall a, b :: 0 <= a < b < |js| && Covers(js[a], t) && Covers(js[b], t) && js[b].accountId < js[a].accountId ==>
               id != js[a].accountId && id != js[b].accountId
    ensures Finds(AccountsOf(js, t, cfg), id)
  {
    hide AccountsOf, Ordered, SortedIds;
    var accounts := AccountsOf(js, t, cfg);
    var a := AccountsOrdered(js, t, cfg);
    assert accounts != [];
    assert a <= k;
    assert accounts[0].id <= id;
    if accounts[0].id == id {
      AccountsSorted(js, t, cfg, id);
    }
  }

  lemma {:induction false} NoneOf(js: seq<Job>, t: int, id: int, c: nat, cfg: Config)
    requires forall k :: 0 <= k < |js| ==> !(Covers(js[k], t) && js[k].accountId == id)
    ensures SumOf(js, All, t, Only(id), c, cfg) == 0
  {
    if js != [] {
      NoneOf(js[..|js| - 1], t, id, c, cfg);
    }
  }

  /** A start that no instant refuses leaves room under the limit of an account that is found. */
  lemma {:induction false} UserRoomAt(js: seq<Job>, job: Job, t: int, cfg: Config)
    requires cfg.Valid() && LimitRun(js, cfg) && InClass(job, cfg) && ClassOf(job, cfg) == RequestOf(job, cfg).cls
    requires !BlockedAt(js, job.startTime, RequestOf(job, cfg), cfg)
    requires job.startTime <= t < job.startTime + job.estimatedProcessing
    requires Finds(AccountsOf(js, t, cfg), job.accountId)
    ensures RoomFor(js, job, t, Only(job.accountId), cfg)
  {
    hide WalltimeClass, Finds;
    AccountsHoldSum(js, t, cfg);
    if Begun(js, t) && NotEnded(js, t) {
      assert !Exceeded(AccountsOf(js, t, cfg), RequestOf(job, cfg), cfg);
      RoomForAccount(AccountsOf(js, t, cfg), RequestOf(job, cfg), cfg);
    } else {
      OutOfSpan(js, t, cfg);
    }
  }

  lemma {:induction false} AscendingHasRoom(js: seq<Job>, cfg: Config, c: nat, t: int)
    requires cfg.Valid() && LimitRun(js, cfg) && Ascends(HoldersOf(js))
    requires c < |js| && js[c].state == Queued && Covers(js[c], t)
    ensures InClass(js[c], cfg) && RoomFor(js[..c], js[c], t, Only(js[c].accountId), cfg)
  {
    hide BlockedAt, WalltimeClass, Finds;
    assert Admitted(js[..c], js[c], cfg);
    FrontIsRun(js, c, cfg);
    var id := js[c].accountId;
    if k: nat :| k < c && Covers(js[k], t) && js[k].accountId == id {
      var hs := HoldersOf(js);
      forall a, b | 0 <= a < b < c && Covers(js[a], t) && Covers(js[b], t) && js[b].accountId < js[a].accountId
        ensures id != js[a].accountId && id != js[b].accountId
      {
        assert HoldsCpus(hs[a]) && HoldsCpus(hs[b]) && hs[c].state == Queued;
      }
      AscendingFinds(js[..c], t, cfg, id, k);
      UserRoomAt(js[..c], js[c], t, cfg);
    } else {
      NoneOf(js[..c], t, id, ClassOf(js[c], cfg), cfg);
    }
  }

  function SmallCfg(): (cfg: Config)
    ensures cfg.Valid()
  {
    Config([100], [1], [10])
  }

  /** A job that holds one CPU from instant 1, or before if it runs, to instant 10. */
  function Overlapping(state: JobState, id: int): Job {
    Lone(state, id, 1, if state == Running then -5 else 1, 10)
  }

  /** Three jobs that overlap, all others alone. */
  function Descending(hs: seq<Holder>, a: nat, b: nat, c: nat): (js: seq<Job>)
    ensures |js| == |hs|
    ensures forall i :: 0 <= i < |js| ==>
              js[i] == if i == a || i == b || i == c then Overlapping(hs[i].state, hs[i].id) else Other(hs[i].state, hs[i].id, i)
  {
    seq(|hs|, i requires 0 <= i < |hs| =>
      if i == a || i == b || i == c then Overlapping(hs[i].state, hs[i].id) else Other(hs[i].state, hs[i].id, i))
  }

  ghost predicate Descends(hs: seq<Holder>, a: nat, b: nat, c: nat) {
    && a < b < c < |hs| && HoldsCpus(hs[a]) && HoldsCpus(hs[b]) && hs[c].state == Queued
    && hs[b].id < hs[a].id && (hs[c].id == hs[a].id || hs[c].id == hs[b].id)
  }

  /** Neither of two accounts in descending order is found. */
  lemma {:induction false} TwoAreLost(x: int, y: int)
    requires y < x
    ensures var one := Charged([], x, 0, 1);
            && one == [Bump(NewAccount(x), 0, 1)] && LimitFindAccount(one, y) == -1
            && var two := Charged(one, y, 0, 1);
            two == [Bump(NewAccount(x), 0, 1), Bump(NewAccount(y), 0, 1)]
            && LimitFindAccount(two, x) == -1 && LimitFindAccount(two, y) == -1
  {
    var one := Charged([], x, 0, 1);
    assert one == [Bump(NewAccount(x), 0, 1)];
    assert InsertPosition(one, y, 1) == 1;
    assert Charged(one, y, 0, 1) == [Bump(NewAccount(x), 0, 1), Bump(NewAccount(y), 0, 1)];
  }

  lemma {:induction false} DescendingAccounts(hs: seq<Holder>, a: nat, b: nat, c: nat, k: nat, t: int)
    requires Descends(hs, a, b, c) && k <= c && 1 <= t < 10
    ensures var one := [Bump(NewAccount(hs[a].id), 0, 1)];
            AccountsOf(Descending(hs, a, b, c)[..k], t, SmallCfg()) ==
            if k <= a then [] else if k <= b then one else [Bump(NewAccount(hs[a].id), 0, 1), Bump(NewAccount(hs[b].id), 0, 1)]
  {
    hide WalltimeClass, Descending, Charged;
    var js, cfg := Descending(hs, a, b, c), SmallCfg();
    var front := js[..k];
    assert OnlyAt(front, a, b, t);
    AccountsOfTwo(front, a, b, t, cfg);
    ClassIsFirst(js[a], cfg);
    ClassIsFirst(js[b], cfg);
    TwoAreLost(hs[a].id, hs[b].id);
  }

  lemma {:induction false} DescendingUnblocked(hs: seq<Holder>, a: nat, b: nat, c: nat, k: nat)
    requires Descends(hs, a, b, c) && (k == a || k == b || k == c) && hs[k].state == Queued
    ensures Admitted(Descending(hs, a, b, c)[..k], Descending(hs, a, b, c)[k], SmallCfg())
  {
    hide WalltimeClass, AccountsOf, Charged, LimitFindAccount;
    var js, cfg := Descending(hs, a, b, c), SmallCfg();
    ClassIsFirst(js[k], cfg);
    TwoAreLost(hs[a].id, hs[b].id);
    forall t | 1 <= t < 10
      ensures !Exceeded(AccountsOf(js[..k], t, cfg), RequestOf(js[k], cfg), cfg)
    {
      DescendingAccounts(hs, a, b, c, k, t);
      FewCpus(hs[a].id, hs[b].id);
      NoneFoundInNone(js[k].accountId);
    }
  }

  lemma {:induction false} DescendingAdmits(hs: seq<Holder>, a: nat, b: nat, c: nat, k: nat)
    requires Descends(hs, a, b, c) && k < |hs|
    ensures Admitted(Descending(hs, a, b, c)[..k], Descending(hs, a, b, c)[k], SmallCfg())
    ensures Timely(Descending(hs, a, b, c)[..k], Descending(hs, a, b, c)[k], SmallCfg(), 0)
  {
    hide BlockedAt, ClassOf, Descending, Admitted, Timely;
    var js, cfg := Descending(hs, a, b, c), SmallCfg();
    var job := js[k];
    ClassIsFirst(job, cfg);
    if job.state == Running {
      RunningAdmitted(js[..k], job, cfg);
    } else if k == a || k == b || k == c {
      DescendingUnblocked(hs, a, b, c, k);
    } else {
      forall t, i | 0 <= i < k && job.startTime <= t < job.completionTime
        ensures !Covers(js[..k][i], t)
      {
        assert js[..k][i] == js[i];
      }
      LoneAdmitted(js[..k], job, cfg);
    }
    TimelyAlone(js[..k], job, cfg, 0);
  }

  lemma {:induction false} NoneFoundInNone(id: int)
    ensures LimitFindAccount([], id) == -1 && CpusIn([], Everyone, 0) == 0
  {
  }

  lemma {:induction false} FewCpus(x: int, y: int)
    ensures CpusIn([Bump(NewAccount(x), 0, 1)], Everyone, 0) == 1
    ensures CpusIn([Bump(NewAccount(x), 0, 1), Bump(NewAccount(y), 0, 1)], Everyone, 0) == 2
  {
    var two := [Bump(NewAccount(x), 0, 1), Bump(NewAccount(y), 0, 1)];
    assert two[..1] == [Bump(NewAccount(x), 0, 1)];
  }

  lemma {:induction false} DescendingIsRun(hs: seq<Holder>, a: nat, b: nat, c: nat)
    requires Descends(hs, a, b, c)
    ensures RunAt(Descending(hs, a, b, c), SmallCfg(), 0)
  {
    hide Admitted, Timely, Descending;
    forall k | 0 <= k < |hs|
      ensures Admitted(Descending(hs, a, b, c)[..k], Descending(hs, a, b, c)[k], SmallCfg())
      ensures Timely(Descending(hs, a, b, c)[..k], Descending(hs, a, b, c)[k], SmallCfg(), 0)
    {
      DescendingAdmits(hs, a, b, c, k);
    }
  }

  lemma {:induction false} DescendingExceeds(hs: seq<Holder>, a: nat, b: nat, c: nat)
    requires Descends(hs, a, b, c)
    ensures RunAt(Descending(hs, a, b, c), SmallCfg(), 0) && !UserRoom(Descending(hs, a, b, c), SmallCfg())
  {
    hide BlockedAt, WalltimeClass, Descending, LimitRun, Timely;
    var js, cfg := Descending(hs, a, b, c), SmallCfg();
    DescendingIsRun(hs, a, b, c);
    ClassIsFirst(js[a], cfg);
    ClassIsFirst(js[b], cfg);
    ClassIsFirst(js[c], cfg);
    var front := js[..c];
    assert OnlyAt(front, a, b, 1);
    SumOfTwo(front, a, b, All, 1, Only(hs[c].id), 0, cfg);
    assert !RoomFor(front, js[c], 1, Only(hs[c].id), cfg);
    assert !KeepsRoom(js, Only(hs[c].id), cfg);
  }

  /**
   Planned jobs find room under the limits of their own accounts, in every run with
   these states and accounts, if and only if the accounts come in ascending order
   as far as planned jobs behind them are concerned.
   */
  lemma {:induction false} AscendsIff(hs: seq<Holder>)
    ensures Ascends(hs) <==>
            forall js, cfg: Config, now :: cfg.Valid() && RunAt(js, cfg, now) && HoldersOf(js) == hs ==> UserRoom(js, cfg)
  {
    hide LimitRun, Timely, UserRoom, Descending;
    if Ascends(hs) {
      forall js, cfg: Config, now | cfg.Valid() && RunAt(js, cfg, now) && HoldersOf(js) == hs
        ensures UserRoom(js, cfg)
      {
        UserRoomBy(js, cfg);
      }
    } else {
      var a, b, c :| 0 <= a < b < c < |hs| && HoldsCpus(hs[a]) && HoldsCpus(hs[b]) && hs[c].state == Queued
                     && hs[b].id < hs[a].id && (hs[c].id == hs[a].id || hs[c].id == hs[b].id);
      DescendingExceeds(hs, a, b, c);
      assert HoldersOf(Descending(hs, a, b, c)) == hs;
    }
  }

  lemma {:induction false} UserRoomBy(js: seq<Job>, cfg: Config)
    requires cfg.Valid() && LimitRun(js, cfg) && Ascends(HoldersOf(js))
    ensures UserRoom(js, cfg)
  {
    hide RoomFor, LimitRun, Ascends;
    forall id, c, t | 0 <= c < |js| && js[c].state == Queued && Covers(js[c], t) && Matches(Only(id), js[c].accountId)
      ensures InClass(js[c], cfg) && RoomFor(js[..c], js[c], t, Only(id), cfg)
    {
      AscendingHasRoom(js, cfg, c, t);
    }
  }
}
