/**
 What the limits guarantee over a whole run (update_sched in plan_operations.cpp
 with plan_limits.cpp): the timeline is the bookings of the jobs so far, every
 planned job was delayed until no instant refused it, and what follows from that
 for the limits of classes and of accounts. All of it is stated on the records of
 the jobs, in list order.
 */
module LimitRuns {
  import opened PlanJobs
  import opened Limits

  // ----- what the jobs hold

  datatype Kind = All | OnlyQueued | OnlyRunning

  predicate OfKind(job: Job, kind: Kind) {
    || (job.state == Queued && kind != OnlyRunning)
    || (job.state == Running && kind != OnlyQueued)
  }

  predicate Covers(job: Job, t: int) {
    OfKind(job, All) && job.startTime <= t < job.completionTime
  }

  function ClassOf(job: Job, cfg: Config): nat {
    WalltimeClass(cfg.thresholds, job.completionTime - job.startTime)
  }

  /** What one job holds at an instant, in a walltime class, as far as somebody's limits are concerned. */
  function AmountOf(job: Job, kind: Kind, t: int, who: Who, c: nat, cfg: Config): int {
    if OfKind(job, kind) && Covers(job, t) && Matches(who, job.accountId) && c == ClassOf(job, cfg)
    then job.Cpus() else 0
  }

  /** The plain sum over jobs. */
  function SumOf(js: seq<Job>, kind: Kind, t: int, who: Who, c: nat, cfg: Config): int {
    if js == [] then 0
    else SumOf(js[..|js| - 1], kind, t, who, c, cfg) + AmountOf(js[|js| - 1], kind, t, who, c, cfg)
  }

  /** The accounts at an instant, charged by one job after the other. */
  function AccountsOf(js: seq<Job>, t: int, cfg: Config): seq<Account> {
    if js == [] then []
    else
      var j := js[|js| - 1];
      var before := AccountsOf(js[..|js| - 1], t, cfg);
      if Covers(j, t) then Charged(before, j.accountId, ClassOf(j, cfg), j.Cpus()) else before
  }

  /** Some job has started by an instant. */
  ghost predicate Begun(js: seq<Job>, t: int) {
    exists a :: 0 <= a < |js| && OfKind(js[a], All) && js[a].startTime <= t
  }

  /** Some job completes after an instant. */
  ghost predicate NotEnded(js: seq<Job>, t: int) {
    exists a :: 0 <= a < |js| && OfKind(js[a], All) && t < js[a].completionTime
  }

  // ----- the timeline of a run

  /** The timeline records what the jobs hold, and reaches from the first start to the last completion. */
  ghost predicate Agrees(js: seq<Job>, vs: seq<Limit>, cfg: Config) {
    && (forall t :: AccountsAt(vs, t) == AccountsOf(js, t, cfg))
    && (forall t :: Begun(js, t) <==> vs != [] && vs[0].timestamp <= t)
    && (forall t :: NotEnded(js, t) <==> vs != [] && t < vs[|vs| - 1].timestamp)
  }

  /** The timeline is the plain sum. */
  ghost predicate RefinesSum(js: seq<Job>, vs: seq<Limit>, cfg: Config) {
    forall t, who, c :: AmountAt(vs, t, who, c) == SumOf(js, All, t, who, c, cfg)
  }

  /** Some instant of the job refuses the start. */
  ghost predicate BlockedAt(js: seq<Job>, start: int, r: Request, cfg: Config)
    requires r.cls < |cfg.total| && r.cls < |cfg.user|
  {
    exists t :: start <= t < start + r.duration && Begun(js, t) && NotEnded(js, t) && Exceeded(AccountsOf(js, t, cfg), r, cfg)
  }

  /** The least start from s0 on that no instant refuses. */
  ghost predicate LeastUnblocked(js: seq<Job>, s0: int, s: int, r: Request, cfg: Config)
    requires r.cls < |cfg.total| && r.cls < |cfg.user|
  {
    && s0 <= s && !BlockedAt(js, s, r, cfg)
    && forall u :: s0 <= u < s ==> BlockedAt(js, u, r, cfg)
  }

  /** What the records of one job satisfy, given the jobs in front of it. */
  ghost predicate Admitted(js: seq<Job>, job: Job, cfg: Config)
    requires cfg.Valid()
  {
    && job.Cpus() > 0
    && (OfKind(job, All) ==> job.startTime < job.completionTime && ClassOf(job, cfg) < NUM_LIMITS)
    && (job.state == Queued ==>
          && job.completionTime == job.startTime + job.estimatedProcessing
          && ClassOf(job, cfg) < |cfg.thresholds|
          && !BlockedAt(js, job.startTime, RequestOf(job, cfg), cfg))
  }

  /** The jobs of a run, as far as limits are concerned. */
  ghost predicate LimitRun(js: seq<Job>, cfg: Config)
    requires cfg.Valid()
  {
    forall a :: 0 <= a < |js| ==> Admitted(js[..a], js[a], cfg)
  }

  /**
   The jobs of a run at an instant: running jobs have begun and not completed, and
   planned ones begin no earlier, at the least start from some instant on that the
   jobs in front of them allow.
   */
  ghost predicate RunAt(js: seq<Job>, cfg: Config, now: int)
    requires cfg.Valid()
  {
    LimitRun(js, cfg) && forall a :: 0 <= a < |js| ==> Timely(js[..a], js[a], cfg, now)
  }

  ghost predicate Timely(js: seq<Job>, job: Job, cfg: Config, now: int)
    requires cfg.Valid()
  {
    && (job.state == Running ==> job.startTime <= now < job.completionTime)
    && (job.state == Queued ==>
          && RequestOf(job, cfg).cls < |cfg.total|
          && exists ready :: now <= ready && LeastUnblocked(js, ready, job.startTime, RequestOf(job, cfg), cfg))
  }

  lemma {:induction false} LimitRunNext(js: seq<Job>, job: Job, cfg: Config)
    requires cfg.Valid()
    ensures LimitRun(js + [job], cfg) <==> LimitRun(js, cfg) && Admitted(js, job, cfg)
  {
    var all := js + [job];
    assert forall a :: 0 <= a <= |js| ==> all[..a] == js[..a];
    assert js[..|js|] == js;
    if LimitRun(all, cfg) {
      assert Admitted(all[..|js|], all[|js|], cfg);
      forall a | 0 <= a < |js|
        ensures Admitted(js[..a], js[a], cfg)
      {
        assert Admitted(all[..a], all[a], cfg);
      }
    }
  }

  /** A run without its last job is a run. */
  lemma {:induction false} LimitRunPrefix(js: seq<Job>, cfg: Config)
    requires cfg.Valid() && js != [] && LimitRun(js, cfg)
    ensures LimitRun(js[..|js| - 1], cfg) && Admitted(js[..|js| - 1], js[|js| - 1], cfg)
  {
    assert js == js[..|js| - 1] + [js[|js| - 1]];
    LimitRunNext(js[..|js| - 1], js[|js| - 1], cfg);
  }

  lemma {:induction false} BegunNext(js: seq<Job>, job: Job, t: int)
    ensures Begun(js + [job], t) <==> Begun(js, t) || (OfKind(job, All) && job.startTime <= t)
    ensures NotEnded(js + [job], t) <==> NotEnded(js, t) || (OfKind(job, All) && t < job.completionTime)
  {
    var all := js + [job];
    assert all[|js|] == job;
    assert forall a :: 0 <= a < |js| ==> all[a] == js[a];
  }

  /** Booking a job keeps the timeline in step with the jobs. */
  lemma {:induction false} AgreesNext(js: seq<Job>, job: Job, vs: seq<Limit>, vs': seq<Limit>, cfg: Config)
    requires Agrees(js, vs, cfg) && OfKind(job, All) && job.startTime < job.completionTime
    requires Books(vs, vs', job.startTime, job.completionTime, job.accountId, ClassOf(job, cfg), job.Cpus())
    ensures Agrees(js + [job], vs', cfg)
  {
    hide Charged, Begun, NotEnded;
    assert (js + [job])[..|js|] == js;
    forall t
      ensures AccountsAt(vs', t) == AccountsOf(js + [job], t, cfg)
      ensures Begun(js + [job], t) <==> vs' != [] && vs'[0].timestamp <= t
      ensures NotEnded(js + [job], t) <==> vs' != [] && t < vs'[|vs'| - 1].timestamp
    {
      BegunNext(js, job, t);
      assert AccountsAt(vs, t) == AccountsOf(js, t, cfg);
    }
  }

  /** A job that is neither planned nor running leaves the timeline alone. */
  lemma {:induction false} AgreesWithout(js: seq<Job>, job: Job, vs: seq<Limit>, cfg: Config)
    requires Agrees(js, vs, cfg) && !OfKind(job, All)
    ensures Agrees(js + [job], vs, cfg)
  {
    hide Begun, NotEnded;
    assert (js + [job])[..|js|] == js;
    forall t
      ensures AccountsAt(vs, t) == AccountsOf(js + [job], t, cfg)
      ensures Begun(js + [job], t) <==> Begun(js, t)
      ensures NotEnded(js + [job], t) <==> NotEnded(js, t)
    {
      BegunNext(js, job, t);
    }
  }

  /** Nothing is held out of the span of the jobs. */
  lemma {:induction false} OutOfSpan(js: seq<Job>, t: int, cfg: Config)
    requires !(Begun(js, t) && NotEnded(js, t))
    ensures AccountsOf(js, t, cfg) == []
  {
    if js != [] {
      var l := |js| - 1;
      assert js == js[..l] + [js[l]];
      BegunNext(js[..l], js[l], t);
      OutOfSpan(js[..l], t, cfg);
    }
  }

  /** The accounts hold the plain sum of the jobs. */
  lemma {:induction false} AccountsHoldSum(js: seq<Job>, t: int, cfg: Config)
    requires cfg.Valid() && LimitRun(js, cfg)
    ensures Shaped(AccountsOf(js, t, cfg))
    ensures forall who, c :: CpusIn(AccountsOf(js, t, cfg), who, c) == SumOf(js, All, t, who, c, cfg)
  {
    hide Charged, WalltimeClass, BlockedAt;
    if js != [] {
      var l := |js| - 1;
      LimitRunPrefix(js, cfg);
      AccountsHoldSum(js[..l], t, cfg);
      if Covers(js[l], t) {
        ChargedShape(AccountsOf(js[..l], t, cfg), js[l].accountId, ClassOf(js[l], cfg), js[l].Cpus());
        ChargedHolds(AccountsOf(js[..l], t, cfg), js[l].accountId, ClassOf(js[l], cfg), js[l].Cpus());
      }
    }
  }

  lemma {:induction false} TimelineIsSum(js: seq<Job>, vs: seq<Limit>, cfg: Config)
    requires cfg.Valid() && LimitRun(js, cfg) && Agrees(js, vs, cfg)
    ensures RefinesSum(js, vs, cfg)
  {
    forall t, who, c
      ensures AmountAt(vs, t, who, c) == SumOf(js, All, t, who, c, cfg)
    {
      AccountsHoldSum(js, t, cfg);
    }
  }

  lemma {:induction false} SumSplits(js: seq<Job>, t: int, who: Who, c: nat, cfg: Config)
    requires forall a :: 0 <= a < |js| ==> js[a].Cpus() >= 0
    ensures SumOf(js, All, t, who, c, cfg) == SumOf(js, OnlyQueued, t, who, c, cfg) + SumOf(js, OnlyRunning, t, who, c, cfg)
    ensures SumOf(js, OnlyQueued, t, who, c, cfg) >= 0 && SumOf(js, OnlyRunning, t, who, c, cfg) >= 0
  {
    if js != [] {
      SumSplits(js[..|js| - 1], t, who, c, cfg);
    }
  }

  /** The timeline of a run never has just one entry, and holds nothing negative. */
  lemma {:induction false} RunIsSettled(js: seq<Job>, vs: seq<Limit>, cfg: Config)
    requires cfg.Valid() && LimitRun(js, cfg) && Timeline(vs) && Agrees(js, vs, cfg)
    ensures Settled(vs)
  {
    hide AccountsOf, SumOf, BlockedAt, WalltimeClass;
    if vs != [] {
      assert Begun(js, vs[0].timestamp);
      var a :| 0 <= a < |js| && OfKind(js[a], All) && js[a].startTime <= vs[0].timestamp;
      assert Begun(js, js[a].startTime) && NotEnded(js, js[a].completionTime - 1);
    }
    forall i, k | 0 <= i < |vs| && 0 <= k < NUM_LIMITS
      ensures CpusIn(vs[i].accounts, Everyone, k) >= 0
    {
      InForceIs(vs, vs[i].timestamp, i);
      AccountsHoldSum(js, vs[i].timestamp, cfg);
      SumSplits(js, vs[i].timestamp, Everyone, k, cfg);
    }
  }

  /** The delay that the timeline demands, in terms of the jobs. */
  lemma {:induction false} BlockedIffAt(js: seq<Job>, vs: seq<Limit>, start: int, r: Request, cfg: Config)
    requires cfg.Valid() && Timeline(vs) && Settled(vs) && Agrees(js, vs, cfg) && r.cls < |cfg.total| && r.duration > 0
    ensures Blocked(vs, start, r, cfg) <==> BlockedAt(js, start, r, cfg)
  {
    hide AccountsOf, Begun, NotEnded, Exceeded, Timeline, AccountsAt;
    BlockedIffExceeded(vs, start, r, cfg);
    forall t
      ensures Spans(vs, t) <==> Begun(js, t) && NotEnded(js, t)
      ensures AccountsAt(vs, t) == AccountsOf(js, t, cfg)
    {
    }
  }

  lemma {:induction false} EarliestIffLeast(js: seq<Job>, vs: seq<Limit>, s0: int, s: int, r: Request, cfg: Config)
    requires cfg.Valid() && Timeline(vs) && Settled(vs) && Agrees(js, vs, cfg) && r.cls < |cfg.total| && r.duration > 0
    ensures EarliestStart(vs, s0, s, r, cfg) <==> LeastUnblocked(js, s0, s, r, cfg)
  {
    hide Blocked, BlockedAt, Timeline, Settled, Agrees;
    forall u
      ensures Blocked(vs, u, r, cfg) <==> BlockedAt(js, u, r, cfg)
    {
      BlockedIffAt(js, vs, u, r, cfg);
    }
  }

  // ----- limits that leave room for everyone

  /** What all jobs hold together. */
  function BookedCpus(js: seq<Job>): int {
    if js == [] then 0
    else
      var j := js[|js| - 1];
      BookedCpus(js[..|js| - 1]) + if OfKind(j, All) then j.Cpus() else 0
  }

  /** No account and no class holds more than so many CPUs. */
  ghost predicate AtMost(accounts: seq<Account>, most: int) {
    && Shaped(accounts)
    && (forall c :: CpusIn(accounts, Everyone, c) <= most)
    && (forall i, c :: 0 <= i < |accounts| ==> ClassCpus(accounts[i], c) <= most)
  }

  lemma {:induction false} ChargedAtMost(accounts: seq<Account>, id: int, cls: nat, n: int, most: int)
    requires AtMost(accounts, most) && n >= 0 && cls < NUM_LIMITS && most >= 0
    ensures AtMost(Charged(accounts, id, cls, n), most + n)
  {
    hide LimitFindAccount, InsertPosition;
    var after := Charged(accounts, id, cls, n);
    ChargedShape(accounts, id, cls, n);
    ChargedHolds(accounts, id, cls, n);
    forall i, c | 0 <= i < |after|
      ensures ClassCpus(after[i], c) <= most + n
    {
      var found := LimitFindAccount(accounts, id);
      if found == -1 {
        var p := InsertPosition(accounts, id, |accounts|);
        assert after[i] == if i < p then accounts[i] else if i == p then Bump(NewAccount(id), cls, n) else accounts[i - 1];
        assert ClassCpus(Bump(NewAccount(id), cls, n), c) <= n;
      } else {
        assert after[i] == if i == found then Bump(accounts[i], cls, n) else accounts[i];
        assert ClassCpus(Bump(accounts[i], cls, n), c) <= ClassCpus(accounts[i], c) + n;
      }
    }
  }

  lemma {:induction false} AccountsAtMost(js: seq<Job>, t: int, cfg: Config)
    requires forall a :: 0 <= a < |js| && OfKind(js[a], All) ==> js[a].Cpus() >= 0 && ClassOf(js[a], cfg) < NUM_LIMITS
    ensures BookedCpus(js) >= 0 && AtMost(AccountsOf(js, t, cfg), BookedCpus(js))
  {
    hide AtMost, Charged, ClassOf;
    if js == [] {
      NoneHeld();
    } else {
      var l := |js| - 1;
      AccountsAtMost(js[..l], t, cfg);
      var accounts := AccountsOf(js[..l], t, cfg);
      if Covers(js[l], t) {
        ChargedAtMost(accounts, js[l].accountId, ClassOf(js[l], cfg), js[l].Cpus(), BookedCpus(js[..l]));
      } else {
        AtMostMonotone(accounts, BookedCpus(js[..l]), BookedCpus(js));
      }
    }
  }

  lemma {:induction false} NoneHeld()
    ensures AtMost([], 0)
  {
  }

  lemma {:induction false} AtMostMonotone(accounts: seq<Account>, a: int, b: int)
    requires AtMost(accounts, a) && a <= b
    ensures AtMost(accounts, b)
  {
  }

  /** Where all jobs fit together, nothing is delayed. */
  lemma {:induction false} RoomForAll(js: seq<Job>, start: int, r: Request, cfg: Config)
    requires forall a :: 0 <= a < |js| && OfKind(js[a], All) ==> js[a].Cpus() >= 0 && ClassOf(js[a], cfg) < NUM_LIMITS
    requires cfg.Valid() && r.cls < |cfg.total| && BookedCpus(js) + r.n <= cfg.total[r.cls] && BookedCpus(js) + r.n <= cfg.user[r.cls]
    ensures !BlockedAt(js, start, r, cfg)
  {
    hide AccountsOf, LimitFindAccount;
    forall t
      ensures !Exceeded(AccountsOf(js, t, cfg), r, cfg)
    {
      AccountsAtMost(js, t, cfg);
    }
  }

  // ----- what the limits leave to planned jobs

  function Max(a: int, b: int): int {
    if a < b then b else a
  }

  /** The limit of a class for everyone together, or for one account. */
  function LimitOf(who: Who, c: nat, cfg: Config): int
    requires cfg.Valid() && c < |cfg.total|
  {
    if who == Everyone then cfg.total[c] else cfg.user[c]
  }

  /** The job keeps the limit together with all jobs in front of it, or has the instant to itself. */
  ghost predicate RoomFor(js: seq<Job>, job: Job, t: int, who: Who, cfg: Config)
    requires cfg.Valid() && ClassOf(job, cfg) < |cfg.total|
  {
    var held := SumOf(js, All, t, who, ClassOf(job, cfg), cfg);
    held == 0 || held + job.Cpus() <= LimitOf(who, ClassOf(job, cfg), cfg)
  }

  /** Every planned job finds room at every instant. */
  ghost predicate KeepsRoom(js: seq<Job>, who: Who, cfg: Config)
    requires cfg.Valid() && LimitRun(js, cfg)
  {
    forall a, t :: 0 <= a < |js| && js[a].state == Queued && Covers(js[a], t) && Matches(who, js[a].accountId) ==>
      InClass(js[a], cfg) && RoomFor(js[..a], js[a], t, who, cfg)
  }

  ghost predicate InClass(job: Job, cfg: Config) {
    ClassOf(job, cfg) < |cfg.total|
  }

  /** The total limit is kept whatever the order of the jobs. */
  lemma {:induction false} EveryoneHasRoom(js: seq<Job>, cfg: Config)
    requires cfg.Valid() && LimitRun(js, cfg)
    ensures KeepsRoom(js, Everyone, cfg)
  {
    hide BlockedAt, WalltimeClass;
    forall a, t | 0 <= a < |js| && js[a].state == Queued && Covers(js[a], t)
      ensures InClass(js[a], cfg) && RoomFor(js[..a], js[a], t, Everyone, cfg)
    {
      assert Admitted(js[..a], js[a], cfg);
      FrontIsRun(js, a, cfg);
      RoomAt(js[..a], js[a].startTime, RequestOf(js[a], cfg), cfg, t);
    }
  }

  lemma {:induction false} FrontIsRun(js: seq<Job>, a: nat, cfg: Config)
    requires cfg.Valid() && LimitRun(js, cfg) && a <= |js|
    ensures LimitRun(js[..a], cfg)
  {
    forall b | 0 <= b < a
      ensures Admitted(js[..a][..b], js[..a][b], cfg)
    {
      assert js[..a][..b] == js[..b];
      assert Admitted(js[..b], js[b], cfg);
    }
  }

  /** A start that no instant refuses leaves room under the total limit, or has the instant to itself. */
  lemma {:induction false} RoomAt(js: seq<Job>, start: int, r: Request, cfg: Config, t: int)
    requires cfg.Valid() && LimitRun(js, cfg) && r.cls < |cfg.total|
    requires !BlockedAt(js, start, r, cfg) && start <= t < start + r.duration
    ensures SumOf(js, All, t, Everyone, r.cls, cfg) + r.n <= cfg.total[r.cls] || SumOf(js, All, t, Everyone, r.cls, cfg) == 0
  {
    AccountsHoldSum(js, t, cfg);
    if Begun(js, t) && NotEnded(js, t) {
      assert !Exceeded(AccountsOf(js, t, cfg), r, cfg);
    } else {
      OutOfSpan(js, t, cfg);
    }
  }

  predicate PlannedIn(job: Job, who: Who, c: nat, cfg: Config) {
    job.state == Queued && Matches(who, job.accountId) && ClassOf(job, cfg) == c
  }

  /** The limit, or the largest planned job that counts against it when that one is larger. */
  function Cap(js: seq<Job>, who: Who, c: nat, cfg: Config): int
    requires cfg.Valid() && c < |cfg.total|
  {
    if js == [] then LimitOf(who, c, cfg)
    else
      var l := js[|js| - 1];
      var cap := Cap(js[..|js| - 1], who, c, cfg);
      if PlannedIn(l, who, c, cfg) && l.Cpus() > cap then l.Cpus() else cap
  }

  ghost predicate EachFits(js: seq<Job>, who: Who, c: nat, cfg: Config)
    requires cfg.Valid() && c < |cfg.total|
  {
    forall a :: 0 <= a < |js| && PlannedIn(js[a], who, c, cfg) ==> js[a].Cpus() <= LimitOf(who, c, cfg)
  }

  /** The cap is the limit if and only if every planned job that counts against it fits by itself. */
  lemma {:induction false} CapIsLimitIff(js: seq<Job>, who: Who, c: nat, cfg: Config)
    requires cfg.Valid() && c < |cfg.total|
    ensures Cap(js, who, c, cfg) >= LimitOf(who, c, cfg)
    ensures Cap(js, who, c, cfg) == LimitOf(who, c, cfg) <==> EachFits(js, who, c, cfg)
  {
    if js != [] {
      CapIsLimitIff(js[..|js| - 1], who, c, cfg);
      assert js == js[..|js| - 1] + [js[|js| - 1]];
    }
  }

  lemma {:induction false} AllPositive(js: seq<Job>, cfg: Config)
    requires cfg.Valid() && LimitRun(js, cfg)
    ensures forall a :: 0 <= a < |js| ==> js[a].Cpus() > 0
  {
    hide BlockedAt;
    forall a | 0 <= a < |js|
      ensures js[a].Cpus() > 0
    {
      assert Admitted(js[..a], js[a], cfg);
    }
  }

  /** Planned jobs alone keep the cap at every instant. */
  ghost predicate QueuedWithinCap(js: seq<Job>, who: Who, cfg: Config)
    requires cfg.Valid()
  {
    forall t, c :: 0 <= c < |cfg.total| ==> SumOf(js, OnlyQueued, t, who, c, cfg) <= Max(0, Cap(js, who, c, cfg))
  }

  lemma {:induction false} RoomKeepsCapAt(js: seq<Job>, t: int, who: Who, c: nat, cfg: Config)
    requires cfg.Valid() && LimitRun(js, cfg) && c < |cfg.total| && KeepsRoom(js, who, cfg)
    ensures SumOf(js, OnlyQueued, t, who, c, cfg) <= Max(0, Cap(js, who, c, cfg))
  {
    hide BlockedAt, WalltimeClass;
    if js != [] {
      var l := |js| - 1;
      LimitRunPrefix(js, cfg);
      RoomPrefix(js, who, cfg);
      RoomKeepsCapAt(js[..l], t, who, c, cfg);
      if PlannedIn(js[l], who, c, cfg) && Covers(js[l], t) {
        assert RoomFor(js[..l], js[l], t, who, cfg);
        AllPositive(js[..l], cfg);
        SumSplits(js[..l], t, who, c, cfg);
        CapIsLimitIff(js[..l], who, c, cfg);
      }
    }
  }

  lemma {:induction false} RoomPrefix(js: seq<Job>, who: Who, cfg: Config)
    requires cfg.Valid() && js != [] && LimitRun(js, cfg) && KeepsRoom(js, who, cfg)
    ensures LimitRun(js[..|js| - 1], cfg) && KeepsRoom(js[..|js| - 1], who, cfg)
  {
    hide BlockedAt, RoomFor;
    LimitRunPrefix(js, cfg);
    var front := js[..|js| - 1];
    assert forall a :: 0 <= a < |front| ==> front[..a] == js[..a] && front[a] == js[a];
  }

  lemma {:induction false} RoomKeepsCap(js: seq<Job>, who: Who, cfg: Config)
    requires cfg.Valid() && LimitRun(js, cfg) && KeepsRoom(js, who, cfg)
    ensures QueuedWithinCap(js, who, cfg)
  {
    forall t, c | 0 <= c < |cfg.total|
      ensures SumOf(js, OnlyQueued, t, who, c, cfg) <= Max(0, Cap(js, who, c, cfg))
    {
      RoomKeepsCapAt(js, t, who, c, cfg);
    }
  }

  /** One planned job at its start. */
  lemma {:induction false} SumAtLeastOne(js: seq<Job>, a: nat, t: int, who: Who, c: nat, cfg: Config)
    requires a < |js| && Covers(js[a], t) && PlannedIn(js[a], who, c, cfg) && forall b :: 0 <= b < |js| ==> js[b].Cpus() >= 0
    ensures SumOf(js, OnlyQueued, t, who, c, cfg) >= js[a].Cpus()
  {
    var l := |js| - 1;
    if a < l {
      SumAtLeastOne(js[..l], a, t, who, c, cfg);
    } else {
      SumSplits(js[..l], t, who, c, cfg);
    }
  }

  /**
   Planned jobs stay within a limit at every instant if and only if each of them
   does so by itself: a job that exceeds the limit alone is planned where nothing
   else is recorded.
   */
  lemma {:induction false} PlannedWithinLimitIff(js: seq<Job>, who: Who, c: nat, cfg: Config)
    requires cfg.Valid() && LimitRun(js, cfg) && KeepsRoom(js, who, cfg) && c < |cfg.total| && LimitOf(who, c, cfg) >= 0
    ensures (forall t :: SumOf(js, OnlyQueued, t, who, c, cfg) <= LimitOf(who, c, cfg)) <==> EachFits(js, who, c, cfg)
  {
    hide BlockedAt, WalltimeClass, RoomFor;
    AllPositive(js, cfg);
    CapIsLimitIff(js, who, c, cfg);
    if EachFits(js, who, c, cfg) {
      forall t
        ensures SumOf(js, OnlyQueued, t, who, c, cfg) <= LimitOf(who, c, cfg)
      {
        RoomKeepsCapAt(js, t, who, c, cfg);
      }
    } else {
      var a :| 0 <= a < |js| && PlannedIn(js[a], who, c, cfg) && js[a].Cpus() > LimitOf(who, c, cfg);
      assert Admitted(js[..a], js[a], cfg);
      SumAtLeastOne(js, a, js[a].startTime, who, c, cfg);
    }
  }

  /** In particular for the total limit, which always leaves room: in every run, and for every class. */
  lemma {:induction false} PlannedWithinTotalIff(js: seq<Job>, c: nat, cfg: Config)
    requires cfg.Valid() && LimitRun(js, cfg) && c < |cfg.total| && cfg.total[c] >= 0
    ensures (forall t :: SumOf(js, OnlyQueued, t, Everyone, c, cfg) <= cfg.total[c])
            <==> forall a :: 0 <= a < |js| && js[a].state == Queued && ClassOf(js[a], cfg) == c ==> js[a].Cpus() <= cfg.total[c]
  {
    EveryoneHasRoom(js, cfg);
    PlannedWithinLimitIff(js, Everyone, c, cfg);
    assert EachFits(js, Everyone, c, cfg) <==>
      forall a :: 0 <= a < |js| && js[a].state == Queued && ClassOf(js[a], cfg) == c ==> js[a].Cpus() <= cfg.total[c];
  }

  /** All jobs together exceed the cap only where the running ones alone do. */
  ghost predicate AllWithinCap(js: seq<Job>, cfg: Config)
    requires cfg.Valid()
  {
    forall t, c :: 0 <= c < |cfg.total| ==> AllWithinCapAt(js, t, c, cfg)
  }

  ghost predicate AllWithinCapAt(js: seq<Job>, t: int, c: nat, cfg: Config)
    requires cfg.Valid() && c < |cfg.total|
  {
    SumOf(js, All, t, Everyone, c, cfg) <= Max(Max(0, Cap(js, Everyone, c, cfg)), SumOf(js, OnlyRunning, t, Everyone, c, cfg))
  }

  // ----- running jobs behind planned ones

  ghost predicate RunningFirst(states: seq<JobState>) {
    forall a, b :: 0 <= a < b < |states| && states[b] == Running ==> states[a] != Queued
  }

  function StatesOf(js: seq<Job>): (states: seq<JobState>)
    ensures |states| == |js| && forall a :: 0 <= a < |js| ==> states[a] == js[a].state
  {
    seq(|js|, a requires 0 <= a < |js| => js[a].state)
  }

  lemma {:induction false} RunningFirstPrefix(js: seq<Job>)
    requires js != [] && RunningFirst(StatesOf(js))
    ensures RunningFirst(StatesOf(js[..|js| - 1]))
    ensures js[|js| - 1].state == Running ==> forall a :: 0 <= a < |js| ==> js[a].state != Queued
  {
    assert forall a :: 0 <= a < |js| ==> StatesOf(js)[a] == js[a].state;
    assert StatesOf(js[..|js| - 1]) == StatesOf(js)[..|js| - 1];
  }

  lemma {:induction false} NoneQueued(js: seq<Job>, t: int, who: Who, c: nat, cfg: Config)
    requires forall a :: 0 <= a < |js| ==> js[a].state != Queued
    ensures SumOf(js, All, t, who, c, cfg) == SumOf(js, OnlyRunning, t, who, c, cfg)
  {
    if js != [] {
      NoneQueued(js[..|js| - 1], t, who, c, cfg);
    }
  }

  lemma {:induction false} AllKeepCapNext(js: seq<Job>, t: int, c: nat, cfg: Config)
    requires cfg.Valid() && js != [] && c < |cfg.total| && AllWithinCapAt(js[..|js| - 1], t, c, cfg)
    requires js[|js| - 1].state == Queued && Covers(js[|js| - 1], t) && ClassOf(js[|js| - 1], cfg) == c ==>
               RoomFor(js[..|js| - 1], js[|js| - 1], t, Everyone, cfg)
    requires js[|js| - 1].state == Running ==> SumOf(js, All, t, Everyone, c, cfg) == SumOf(js, OnlyRunning, t, Everyone, c, cfg)
    ensures AllWithinCapAt(js, t, c, cfg)
  {
    hide ClassOf, EachFits;
    CapIsLimitIff(js[..|js| - 1], Everyone, c, cfg);
  }

  lemma {:induction false} AllKeepCap(js: seq<Job>, t: int, c: nat, cfg: Config)
    requires cfg.Valid() && LimitRun(js, cfg) && c < |cfg.total| && RunningFirst(StatesOf(js))
    ensures AllWithinCapAt(js, t, c, cfg)
  {
    hide RunningFirst, LimitRun, AllWithinCapAt, RoomFor;
    if js == [] {
      NoneWithinCap(t, c, cfg);
    } else {
      var l := |js| - 1;
      LimitRunPrefix(js, cfg);
      RunningFirstPrefix(js);
      AllKeepCap(js[..l], t, c, cfg);
      EveryoneHasRoom(js, cfg);
      if js[l].state == Running {
        NoneQueued(js, t, Everyone, c, cfg);
      }
      AllKeepCapNext(js, t, c, cfg);
    }
  }

  lemma {:induction false} NoneWithinCap(t: int, c: nat, cfg: Config)
    requires cfg.Valid() && c < |cfg.total|
    ensures AllWithinCapAt([], t, c, cfg)
  {
  }
}
