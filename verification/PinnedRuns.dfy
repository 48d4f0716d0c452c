/**
 Retries that give a job less than its request allows: jobs for one CPU each, on
 nodes with one core each, all of them moved to the front in every cycle.
 */
module PinnedRuns {
  import opened PlanLists
  import opened PlanJobs
  import opened SlotSelection
  import opened SlotRuns
  import opened SlotFit
  import opened SlotBooking
  import opened GapEmission
  import opened SlotTable
  import opened Limits
  import opened LimitRuns
  import opened JobPlanning
  import opened PlanSafety
  import opened PlanRebuild
  import opened JobOrder
  import opened SchedUpdate
  import opened NodeTables
  import opened OneCpu
  import opened Retry

  // ----- jobs for one CPU, one after the other

  /** A job for one CPU, the nodes that it is fixed to, and the slot that it gets. */
  datatype Single1 = Single1(id: int, names: seq<Option<int>>, slot: nat)

  ghost predicate Sane(slots0: seq<Slot>, rs: seq<Single1>) {
    && (forall x :: 0 <= x < |slots0| ==> slots0[x].time >= 0 && slots0[x].node == x)
    && (forall a :: 0 <= a < |rs| ==> |rs[a].names| == 1 && rs[a].slot < |slots0|)
  }

  /** The records of the jobs when each gets its slot behind those in front of it. */
  ghost function Laid(slots0: seq<Slot>, rs: seq<Single1>, est: int): (js: seq<Job>)
    requires Sane(slots0, rs)
    ensures |js| == |rs|
  {
    if rs == [] then []
    else
      var l := |rs| - 1;
      var front := Laid(slots0, rs[..l], est);
      front + [PlannedJob(rs[l].id, 42, 1, rs[l].names, Single(TableAfter(slots0, front), rs[l].slot), est)]
  }

  ghost predicate Used(rs: seq<Single1>, x: int) {
    exists a :: 0 <= a < |rs| && rs[a].slot == x
  }

  lemma {:induction false} UsedNext(rs: seq<Single1>, x: int)
    requires rs != []
    ensures Used(rs, x) <==> Used(rs[..|rs| - 1], x) || rs[|rs| - 1].slot == x
  {
    var l := |rs| - 1;
    if Used(rs[..l], x) {
      var a :| 0 <= a < l && rs[..l][a].slot == x;
      assert rs[a].slot == x;
    }
    if Used(rs, x) {
      var a :| 0 <= a < |rs| && rs[a].slot == x;
      assert a < l ==> rs[..l][a].slot == x;
    }
  }

  /** A table in which used slots are booked until one duration or more, and the others are as they were. */
  ghost predicate BookedUsed(slots0: seq<Slot>, table: seq<Slot>, rs: seq<Single1>, est: int) {
    && |table| == |slots0|
    && forall x :: 0 <= x < |table| ==> BookedSlot(slots0, table[x], Used(rs, x), x, est)
  }

  ghost predicate BookedSlot(slots0: seq<Slot>, s: Slot, used: bool, x: nat, est: int)
    requires x < |slots0|
  {
    s.node == x && s.time >= 0 && if used then s.time >= est else s == slots0[x]
  }

  lemma {:induction false} LaidFront(slots0: seq<Slot>, rs: seq<Single1>, est: int)
    requires Sane(slots0, rs) && rs != []
    ensures var l := |rs| - 1;
            var front := Laid(slots0, rs[..l], est);
            Laid(slots0, rs, est) == front + [PlannedJob(rs[l].id, 42, 1, rs[l].names, Single(TableAfter(slots0, front), rs[l].slot), est)]
  {
    hide TableAfter, PlannedJob;
  }

  /** Giving one more job its slot. */
  lemma {:induction false} BookedNext(slots0: seq<Slot>, table: seq<Slot>, rs: seq<Single1>, est: int)
    requires Sane(slots0, rs) && rs != [] && est > 0 && BookedUsed(slots0, table, rs[..|rs| - 1], est)
    ensures var slot := rs[|rs| - 1].slot; BookedUsed(slots0, FreeAll(table, [slot], table[slot].time + est), rs, est)
  {
    var slot := rs[|rs| - 1].slot;
    FreeAllIs(table, [slot], table[slot].time + est);
    hide Used;
    forall x | 0 <= x < |slots0|
      ensures Used(rs, x) <==> Used(rs[..|rs| - 1], x) || slot == x
    {
      UsedNext(rs, x);
    }
  }

  lemma {:induction false} SaneFront(slots0: seq<Slot>, rs: seq<Single1>)
    requires Sane(slots0, rs) && rs != []
    ensures Sane(slots0, rs[..|rs| - 1]) && rs[|rs| - 1].slot < |slots0| && |rs[|rs| - 1].names| == 1
  {
  }

  lemma {:induction false} LaidNext(slots0: seq<Slot>, front: seq<Job>, rs: seq<Single1>, est: int)
    requires Sane(slots0, rs) && rs != [] && est > 0 && BookedUsed(slots0, TableAfter(slots0, front), rs[..|rs| - 1], est)
    ensures var l := |rs| - 1;
            BookedUsed(slots0, TableAfter(slots0, front + [PlannedJob(rs[l].id, 42, 1, rs[l].names, Single(TableAfter(slots0, front), rs[l].slot), est)]), rs, est)
  {
    hide BookedUsed, TableAfter, Used, FreeAll;
    var l := |rs| - 1;
    var table := TableAfter(slots0, front);
    var job := PlannedJob(rs[l].id, 42, 1, rs[l].names, Single(table, rs[l].slot), est);
    assert job.cpuIndexes == [rs[l].slot as int] && job.completionTime == table[rs[l].slot].time + est && job.state == Queued;
    BookedNext(slots0, table, rs, est);
    NextTable(slots0, front, job);
  }

  lemma {:induction false} LaidTable(slots0: seq<Slot>, rs: seq<Single1>, est: int)
    requires Sane(slots0, rs) && est > 0
    ensures BookedUsed(slots0, TableAfter(slots0, Laid(slots0, rs, est)), rs, est)
    ensures Alike(Laid(slots0, rs, est), est) && BookedCpus(Laid(slots0, rs, est)) == |rs|
  {
    if rs == [] {
      assert forall x :: !Used([], x);
    } else {
      hide Alike, BookedUsed, BookedCpus, TableAfter, Sane, Laid;
      SaneFront(slots0, rs);
      LaidFront(slots0, rs, est);
      LaidTable(slots0, rs[..|rs| - 1], est);
      var front := Laid(slots0, rs[..|rs| - 1], est);
      LaidNext(slots0, front, rs, est);
      SingleAlike(TableAfter(slots0, front), rs[|rs| - 1], est);
      AlikeNext(front, PlannedJob(rs[|rs| - 1].id, 42, 1, rs[|rs| - 1].names, Single(TableAfter(slots0, front), rs[|rs| - 1].slot), est), est);
    }
  }

  lemma {:induction false} SingleAlike(table: seq<Slot>, r: Single1, est: int)
    requires r.slot < |table|
    ensures var job := PlannedJob(r.id, 42, 1, r.names, Single(table, r.slot), est);
            job.Cpus() == 1 && job.state == Queued && job.completionTime - job.startTime == est
  {
  }

  lemma {:induction false} AlikeNext(js: seq<Job>, job: Job, est: int)
    requires Alike(js, est) && job.Cpus() == 1 && job.state == Queued && job.completionTime - job.startTime == est
    ensures Alike(js + [job], est) && BookedCpus(js + [job]) == BookedCpus(js) + 1
  {
    assert (js + [job])[..|js|] == js;
  }

  lemma {:induction false} LaidPrefix(slots0: seq<Slot>, rs: seq<Single1>, est: int, a: nat)
    requires Sane(slots0, rs) && a <= |rs|
    ensures Laid(slots0, rs, est)[..a] == Laid(slots0, rs[..a], est)
  {
    hide TableAfter, PlannedJob, Laid;
    if a < |rs| {
      var l := |rs| - 1;
      LaidPrefix(slots0, rs[..l], est, a);
      LaidFront(slots0, rs, est);
      assert rs[..l][..a] == rs[..a];
    } else {
      assert rs[..a] == rs;
    }
  }

  /** The job is fixed to the node of its slot, or all slots that are free earlier are used, and its own is not. */
  ghost predicate ComesFirst(slots0: seq<Slot>, rs: seq<Single1>, a: nat, est: int)
    requires a < |rs|
  {
    || rs[a].names == [Some(rs[a].slot)]
    || (&& rs[a].names == [None] && rs[a].slot < |slots0| && !Used(rs[..a], rs[a].slot) && slots0[rs[a].slot].time < est
        && forall x :: 0 <= x < |slots0| && x != rs[a].slot ==> Used(rs[..a], x) || slots0[rs[a].slot].time < slots0[x].time)
  }

  function NoLimit(slot: nat): Fitness {
    0
  }

  lemma {:induction false} RowsFit(a: nat, n: nat)
    ensures FitnessRow(Same(NoLimit), a, n) == Fits(n)
  {
    assert forall slot: nat :: Same(NoLimit)(a, slot) == NoLimit(slot) == 0;
  }

  lemma {:induction false} FreeMark(slots: seq<Slot>, names: seq<Option<int>>, p: nat)
    requires p < |slots| && |names| == 1 && (forall x :: 0 <= x < |slots| ==> slots[x].time >= 0 && slots[x].node == x)
    ensures var marks := FirstMarks(names, 1, slots, Fits(|slots|));
            forall x :: 0 <= x < |slots| ==> marks[x] == if names == [Some(x)] || names == [None] then 0 else PROHIBITED
  {
    forall x | 0 <= x < |slots|
      ensures CoresOf(slots, x) >= 1
    {
      OwnCore(slots, x);
    }
    assert forall x: int :: Some(x) in names <==> names == [Some(x)];
    assert None in names <==> names == [None];
  }

  lemma {:induction false} OwnCore(slots: seq<Slot>, x: nat)
    requires x < |slots| && slots[x].node == x
    ensures CoresOf(slots, x) >= 1
  {
    if x < |slots| - 1 {
      OwnCore(slots[..|slots| - 1], x);
    }
  }

  /** Behind those in front of it, its slot is the first one that the job may pick. */
  lemma {:induction false} FirstToPick(slots0: seq<Slot>, rs: seq<Single1>, a: nat, est: int)
    requires Sane(slots0, rs) && a < |rs| && est > 0 && ComesFirst(slots0, rs, a, est)
    ensures var table := TableAfter(slots0, Laid(slots0, rs[..a], est));
            var marks := FirstMarks(rs[a].names, 1, table, Fits(|slots0|));
            && marks[rs[a].slot] == 0
            && forall i :: 0 <= i < |table| && i != rs[a].slot && marks[i] == 0 ==> Precedes(table, rs[a].slot, i)
  {
    hide BookedUsed;
    LaidTable(slots0, rs[..a], est);
    FirstOf(slots0, TableAfter(slots0, Laid(slots0, rs[..a], est)), rs, a, est);
  }

  lemma {:induction false} FirstOf(slots0: seq<Slot>, table: seq<Slot>, rs: seq<Single1>, a: nat, est: int)
    requires Sane(slots0, rs) && a < |rs| && ComesFirst(slots0, rs, a, est) && |table| == |slots0|
    requires BookedUsed(slots0, table, rs[..a], est)
    ensures var marks := FirstMarks(rs[a].names, 1, table, Fits(|slots0|));
            && marks[rs[a].slot] == 0
            && forall i :: 0 <= i < |table| && i != rs[a].slot && marks[i] == 0 ==> Precedes(table, rs[a].slot, i)
  {
    FreeMark(table, rs[a].names, rs[a].slot);
    hide FirstMarks, Used;
  }

  lemma {:induction false} NextIsBest(slots0: seq<Slot>, rs: seq<Single1>, a: nat, est: int, most: int)
    requires Sane(slots0, rs) && a < |rs| <= most && est > 0 && ComesFirst(slots0, rs, a, est)
    ensures var before := Laid(slots0, rs[..a], est);
            BestPlan(slots0, rs[a].names, before, PlannedJob(rs[a].id, 42, 1, rs[a].names, Single(TableAfter(slots0, before), rs[a].slot), est),
                     Fits(|slots0|), RoomyCfg(est, most))
  {
    LaidTable(slots0, rs[..a], est);
    FirstToPick(slots0, rs, a, est);
    hide FirstMarks, TableAfter, Laid, BestPlan, PlannedJob, ComesFirst, Alike, BookedUsed, BookedCpus, Precedes;
    SingleIsBest(slots0, rs[a].names, Laid(slots0, rs[..a], est), rs[a].id, 42, rs[a].slot, Fits(|slots0|), est, most);
  }

  /** Each job then has its best plan. */
  lemma {:induction false} LaidIsBest(slots0: seq<Slot>, rs: seq<Single1>, a: nat, est: int, most: int)
    requires Sane(slots0, rs) && a < |rs| <= most && est > 0 && ComesFirst(slots0, rs, a, est)
    ensures BestPlan(slots0, rs[a].names, Laid(slots0, rs, est)[..a], Laid(slots0, rs, est)[a], Fits(|slots0|), RoomyCfg(est, most))
  {
    hide FirstMarks, TableAfter, Laid, BestPlan, PlannedJob, ComesFirst, RoomyCfg;
    LaidAt(slots0, rs, a, est);
    NextIsBest(slots0, rs, a, est, most);
  }

  lemma {:induction false} LaidAt(slots0: seq<Slot>, rs: seq<Single1>, a: nat, est: int)
    requires Sane(slots0, rs) && a < |rs|
    ensures Laid(slots0, rs, est)[..a] == Laid(slots0, rs[..a], est)
    ensures Laid(slots0, rs, est)[a] ==
            PlannedJob(rs[a].id, 42, 1, rs[a].names, Single(TableAfter(slots0, Laid(slots0, rs[..a], est)), rs[a].slot), est)
  {
    hide TableAfter, PlannedJob, Laid;
    LaidPrefix(slots0, rs, est, a);
    LaidPrefix(slots0, rs, est, a + 1);
    assert rs[..a + 1][..a] == rs[..a];
    LaidFront(slots0, rs[..a + 1], est);
    assert Laid(slots0, rs, est)[a] == Laid(slots0, rs, est)[..a + 1][a];
  }

  lemma {:induction false} LaidIsPlanned(slots0: seq<Slot>, was: seq<Job>, rs: seq<Single1>, est: int, most: int)
    requires Sane(slots0, rs) && |rs| <= most && est > 0 && |rs| <= |was|
    requires forall a :: 0 <= a < |rs| ==> was[a].fixedNames == rs[a].names && ComesFirst(slots0, rs, a, est)
    ensures WellPlanned(slots0, was, Laid(slots0, rs, est), Same(NoLimit), RoomyCfg(est, most))
  {
    hide Sane, ComesFirst, BestPlan, FitnessRow;
    var js := Laid(slots0, rs, est);
    forall a | 0 <= a < |js|
      ensures BestPlan(slots0, was[a].fixedNames, js[..a], js[a], FitnessRow(Same(NoLimit), a, |slots0|), RoomyCfg(est, most))
    {
      RowsFit(a, |slots0|);
      LaidIsBest(slots0, rs, a, est, most);
    }
  }

  // ----- a start that is not the best one

  /** A job for one CPU that starts although a slot was free earlier, and nothing would have delayed it there. */
  lemma {:induction false} NotBest(slots0: seq<Slot>, rs: seq<Single1>, job: Job, y: nat, est: int, most: int)
    requires Sane(slots0, rs) && est > 0 && y < |slots0| && |rs| < most
    requires job.reqPpn == 1 && job.reqNumNodes == 1 && job.estimatedProcessing == est
    requires TableAfter(slots0, Laid(slots0, rs, est))[y].time < job.startTime
    ensures !BestStart(slots0, [None], Laid(slots0, rs, est), job, Fits(|slots0|), RoomyCfg(est, most))
  {
    hide FirstMarks, TableAfter, Laid, BookedUsed, Used, AccountsOf, BookedCpus, WalltimeClass, BlockedAt, CanStart;
    var before := Laid(slots0, rs, est);
    var table := TableAfter(slots0, before);
    FreeAfterLaid(slots0, rs, y, est);
    var marks := FirstMarks([None], 1, table, Fits(|slots0|));
    var cfg := RoomyCfg(est, most);
    NothingRefusesAlike(before, job, est, most);
    StartsWhereFree(table, marks, y);
    forall ready | LeastFit(table, marks, 1, [None], ready)
      ensures !LeastUnblocked(before, ready, job.startTime, RequestOf(job, cfg), cfg)
    {
      assert ready <= table[y].time;
      assert !BlockedAt(before, ready, RequestOf(job, cfg), cfg);
    }
  }

  /** Any slot may be picked for a loose job. */
  lemma {:induction false} FreeAfterLaid(slots0: seq<Slot>, rs: seq<Single1>, y: nat, est: int)
    requires Sane(slots0, rs) && est > 0 && y < |slots0|
    ensures |Laid(slots0, rs, est)| == |rs| && Alike(Laid(slots0, rs, est), est) && BookedCpus(Laid(slots0, rs, est)) == |rs|
    ensures var table := TableAfter(slots0, Laid(slots0, rs, est));
            var marks := FirstMarks([None], 1, table, Fits(|slots0|));
            |table| == |slots0| && marks[y] == 0 && NoException(marks)
  {
    LaidTable(slots0, rs, est);
    var table := TableAfter(slots0, Laid(slots0, rs, est));
    assert forall x :: 0 <= x < |table| ==> BookedSlot(slots0, table[x], Used(rs, x), x, est);
    FreeMark(table, [None], y);
  }

  lemma {:induction false} NothingRefusesAlike(js: seq<Job>, job: Job, est: int, most: int)
    requires Alike(js, est) && BookedCpus(js) < most && job.reqPpn == 1 && job.reqNumNodes == 1 && job.estimatedProcessing == est
    ensures var cfg := RoomyCfg(est, most);
            RequestOf(job, cfg).cls == 0 && forall start :: !BlockedAt(js, start, RequestOf(job, cfg), cfg)
  {
    hide BlockedAt, BookedCpus, WalltimeClass;
    var cfg := RoomyCfg(est, most);
    RoomyClass(est, most);
    assert forall a :: 0 <= a < |js| ==> ClassOf(js[a], cfg) == 0;
    assert job.Cpus() == 1;
    forall start
      ensures !BlockedAt(js, start, RequestOf(job, cfg), cfg)
    {
      RoomForAll(js, start, RequestOf(job, cfg), cfg);
    }
  }

  lemma {:induction false} StartsWhereFree(slots: seq<Slot>, marks: seq<int>, y: nat)
    requires |marks| == |slots| && y < |slots| && marks[y] == 0
    ensures CanStart(slots, marks, 1, [None], slots[y].time)
  {
    var node, t := slots[y].node, slots[y].time;
    assert y in UsableBy(slots, marks, node, t);
    CardOfSubset({y}, UsableBy(slots, marks, node, t));
    assert |{y}| == 1;
    hide UsableBy, CanStart;
    OneNodeCanStartIff(slots, marks, 1, [None], t);
  }

  // ----- a cycle and its retry

  /** Some planned job other than the first one was not fixed to nodes. */
  ghost predicate LooseBehind(loose: seq<bool>) {
    exists i :: 1 <= i < |loose| && loose[i]
  }

  /** Every job has a node of its own, unless only the first one is loose: then the second one is fixed to its node. */
  ghost function NodeFor(loose: seq<bool>, i: nat): nat {
    if i == 1 && !LooseBehind(loose) then 0 else i
  }

  ghost function FirstTime(loose: seq<bool>): (rs: seq<Single1>)
    ensures |rs| == |loose|
    ensures forall i :: 0 <= i < |rs| ==>
              rs[i] == Single1(i, if loose[i] then [None] else [Some(NodeFor(loose, i))], NodeFor(loose, i))
  {
    seq(|loose|, i requires 0 <= i < |loose| =>
      Single1(i, if loose[i] then [None] else [Some(NodeFor(loose, i))], NodeFor(loose, i)))
  }

  /** The same jobs, last one first, each fixed to the node of its first plan. */
  ghost function SecondTime(loose: seq<bool>): (rs: seq<Single1>)
    ensures |rs| == |loose|
    ensures forall q :: 0 <= q < |rs| ==>
              var i := |loose| - 1 - q; rs[q] == Single1(i, [Some(NodeFor(loose, i))], NodeFor(loose, i))
  {
    seq(|loose|, q requires 0 <= q < |loose| =>
      var i := |loose| - 1 - q; Single1(i, [Some(NodeFor(loose, i))], NodeFor(loose, i)))
  }

  /** Node c has one core, which is free at instant 5 * c. */
  function Fives(k: nat): (slots: seq<Slot>)
    ensures |slots| == k && forall c :: 0 <= c < k ==> slots[c] == Slot(5 * c, c)
  {
    seq(k, c => Slot(5 * c, c))
  }

  function FiveTimes(k: nat): (all: seq<seq<int>>)
    ensures |all| == k && forall c :: 0 <= c < k ==> all[c] == [5 * c]
  {
    seq(k, c => [5 * c])
  }

  lemma {:induction false} FivesAreSlots(k: nat)
    ensures SlotsOf(FiveTimes(k)) == Fives(k)
  {
    if k > 0 {
      FivesAreSlots(k - 1);
      assert FiveTimes(k)[..k - 1] == FiveTimes(k - 1);
      assert Fives(k) == Fives(k - 1) + [Slot(5 * (k - 1), k - 1)];
    }
  }

  lemma {:induction false} FiveNodes(k: nat) returns (nodes: seq<Node>)
    ensures ValidNodes(nodes) && Table(nodes, 0) == Fives(k)
  {
    nodes := NodesOf(FiveTimes(k));
    TableOf(FiveTimes(k));
    FivesAreSlots(k);
  }

  lemma {:induction false} SaneTimes(loose: seq<bool>)
    ensures Sane(Fives(|loose|), FirstTime(loose)) && Sane(Fives(|loose|), SecondTime(loose))
  {
  }

  lemma {:induction false} FirstComesFirst(loose: seq<bool>, i: nat)
    requires i < |loose|
    ensures ComesFirst(Fives(|loose|), FirstTime(loose), i, 5 * |loose| + 1)
  {
    var rs := FirstTime(loose);
    if loose[i] {
      assert NodeFor(loose, i) == i;
      assert i >= 1 ==> LooseBehind(loose);
      forall x | 0 <= x < i
        ensures Used(rs[..i], x)
      {
        assert rs[..i][x].slot == x;
      }
      assert forall a :: 0 <= a < i ==> rs[..i][a].slot <= a;
    }
  }

  /** The dropped job asks for five CPUs on one node. */
  function TooWide(id: int, est: int): Job {
    Job(id, Queued, 0, 0, "", 0, 0, 5, 5, 1, est, 0, 0, [None], None, [], [], [])
  }

  lemma {:induction false} TooWideIsHopeless(slots: seq<Slot>, id: int, est: int)
    requires forall x :: 0 <= x < |slots| ==> slots[x].node == x && slots[x].time >= 0
    ensures Hopeless(slots, TooWide(id, est), Fits(|slots|))
  {
    var marks := FirstMarks([None], 5, slots, Fits(|slots|));
    forall x | 0 <= x < |slots|
      ensures marks[x] == -2
    {
      OneCore(slots, x);
    }
    hide FirstMarks;
    forall t
      ensures !CanStart(slots, marks, 5, [None], t)
    {
      forall node
        ensures |UsableBy(slots, marks, node, t)| < 5
      {
        assert UsableBy(slots, marks, node, t) == {};
      }
      hide UsableBy, CanStart;
      OneNodeCanStartIff(slots, marks, 5, [None], t);
    }
  }

  lemma {:induction false} OneCore(slots: seq<Slot>, x: int)
    requires forall i :: 0 <= i < |slots| ==> slots[i].node == i
    ensures CoresOf(slots, x) <= 1 && (x >= |slots| ==> CoresOf(slots, x) == 0)
  {
    if slots != [] {
      OneCore(slots[..|slots| - 1], x);
    }
  }

  // ----- a list that is reversed by the pass

  lemma {:induction false} AllFlagged<X>(xs: seq<X>, flags: seq<bool>)
    requires |flags| == |xs| && forall i :: 0 <= i < |flags| ==> flags[i]
    ensures |FlaggedReversed(xs, flags)| == |xs| && Unflagged(xs, flags) == []
    ensures forall p :: 0 <= p < |xs| ==> FlaggedReversed(xs, flags)[p] == xs[|xs| - 1 - p]
  {
    if xs != [] {
      AllFlagged(xs[..|xs| - 1], flags[..|xs| - 1]);
    }
  }

  /** All jobs are moved, so that their order is reversed. */
  lemma {:induction false} PassReverses(js: seq<Job>, now: int)
    requires forall i :: 0 <= i < |js| ==> Prioritised(js[i], now)
    ensures |PassedJobs(js, now)| == |js|
    ensures forall q :: 0 <= q < |js| ==> PassedJobs(js, now)[q] == js[|js| - 1 - q].(priority := 56)
  {
    AllFlagged(Marked(js, Flags(js, now)), Flags(js, now));
  }

  /** All jobs but the last one are moved. */
  lemma {:induction false} PassReversesFront(js: seq<Job>, z: Job, now: int)
    requires (forall i :: 0 <= i < |js| ==> Prioritised(js[i], now)) && !Prioritised(z, now)
    ensures |PassedJobs(js + [z], now)| == |js| + 1 && PassedJobs(js + [z], now)[|js|] == z
    ensures forall q :: 0 <= q < |js| ==> PassedJobs(js + [z], now)[q] == js[|js| - 1 - q].(priority := 56)
  {
    var all := js + [z];
    var flags := Flags(all, now);
    var ms := Marked(all, flags);
    assert flags[..|js|] == Flags(js, now) && ms[..|js|] == Marked(js, Flags(js, now));
    AllFlagged(Marked(js, Flags(js, now)), Flags(js, now));
  }

  // ----- the retry that pins a job

  ghost function LaidFirst(loose: seq<bool>): (js: seq<Job>)
    ensures |js| == |loose|
  {
    SaneTimes(loose);
    Laid(Fives(|loose|), FirstTime(loose), 5 * |loose| + 1)
  }

  ghost function LaidAgain(loose: seq<bool>): (js: seq<Job>)
    ensures |js| == |loose|
  {
    SaneTimes(loose);
    Laid(Fives(|loose|), SecondTime(loose), 5 * |loose| + 1)
  }

  /** The record of a job for one CPU that has a slot of its own node. */
  function Record(id: int, slot: nat, est: int, start: int): Job {
    Job(id, Queued, 42, 0, "", 0, 0, 1, 1, 1, est, start, start + est, [Some(slot)], None, [Some(slot)], [slot], [slot])
  }

  lemma {:induction false} SingleRecord(table: seq<Slot>, r: Single1, est: int)
    requires r.slot < |table| && table[r.slot].node == r.slot && (r.names == [None] || r.names == [Some(r.slot)])
    ensures PlannedJob(r.id, 42, 1, r.names, Single(table, r.slot), est) == Record(r.id, r.slot, est, table[r.slot].time)
  {
  }

  /** The record of a job behind those in front of it. */
  lemma {:induction false} LaidRecord(slots0: seq<Slot>, rs: seq<Single1>, a: nat, est: int)
    requires Sane(slots0, rs) && a < |rs| && est > 0 && (rs[a].names == [None] || rs[a].names == [Some(rs[a].slot)])
    ensures Laid(slots0, rs, est)[a] ==
            Record(rs[a].id, rs[a].slot, est, TableAfter(slots0, Laid(slots0, rs, est)[..a])[rs[a].slot].time)
  {
    LaidAt(slots0, rs, a, est);
    LaidTable(slots0, rs[..a], est);
    hide TableAfter, Laid, Alike, BookedCpus, Used, PlannedJob, Record;
    var table := TableAfter(slots0, Laid(slots0, rs[..a], est));
    assert BookedSlot(slots0, table[rs[a].slot], Used(rs[..a], rs[a].slot), rs[a].slot, est);
    SingleRecord(table, rs[a], est);
  }

  /** The records that the two cycles leave. */
  lemma {:induction false} LaidRecords(loose: seq<bool>, i: nat) returns (first: int, second: int)
    requires i < |loose|
    ensures LaidFirst(loose)[i] == Record(i, NodeFor(loose, i), 5 * |loose| + 1, first)
    ensures LaidAgain(loose)[|loose| - 1 - i] == Record(i, NodeFor(loose, i), 5 * |loose| + 1, second)
    ensures second == TableAfter(Fives(|loose|), LaidAgain(loose)[..|loose| - 1 - i])[NodeFor(loose, i)].time
  {
    SaneTimes(loose);
    hide TableAfter, Laid, Record;
    var slots0, est, q := Fives(|loose|), 5 * |loose| + 1, |loose| - 1 - i;
    LaidRecord(slots0, FirstTime(loose), i, est);
    LaidRecord(slots0, SecondTime(loose), q, est);
    first := TableAfter(slots0, LaidFirst(loose)[..i])[NodeFor(loose, i)].time;
    second := TableAfter(slots0, LaidAgain(loose)[..q])[NodeFor(loose, i)].time;
  }

  /** A job as it asks to be planned in the first cycle. */
  ghost function Asked(loose: seq<bool>, i: nat): Job
    requires i < |loose|
  {
    LaidFirst(loose)[i].(fixedNames := FirstTime(loose)[i].names)
  }

  /** The list that is planned in the first cycle, and what the prioritised jobs are at the outset. */
  ghost function PlanOf(loose: seq<bool>): (plan: seq<Job>)
    ensures |plan| == |loose| + 1
    ensures forall i :: 0 <= i < |loose| ==> plan[i] == Asked(loose, i).(priority := 56)
    ensures plan[|loose|] == TooWide(|loose|, 5 * |loose| + 1)
  {
    hide Asked;
    seq(|loose|, i requires 0 <= i < |loose| => Asked(loose, i).(priority := 56)) + [TooWide(|loose|, 5 * |loose| + 1)]
  }

  ghost function OutsetOf(loose: seq<bool>): (js: seq<Job>)
    ensures |js| == |loose|
    ensures forall i :: 0 <= i < |loose| ==> js[i] == Asked(loose, |loose| - 1 - i)
  {
    hide Asked;
    seq(|loose|, i requires 0 <= i < |loose| => Asked(loose, |loose| - 1 - i))
  }

  ghost function AbortedOf(loose: seq<bool>): Aborted {
    Aborted(PlanOf(loose), LaidFirst(loose), |loose|)
  }

  lemma {:induction false} OutsetPasses(loose: seq<bool>)
    ensures PassedJobs(OutsetOf(loose) + [TooWide(|loose|, 5 * |loose| + 1)], 0) == PlanOf(loose)
  {
    hide LaidFirst;
    forall i | 0 <= i < |loose|
      ensures Prioritised(OutsetOf(loose)[i], 0)
    {
      var first, second := LaidRecords(loose, |loose| - 1 - i);
    }
    PassReversesFront(OutsetOf(loose), TooWide(|loose|, 5 * |loose| + 1), 0);
    hide PassedJobs, Prioritised;
    forall i | 0 <= i < |loose|
      ensures PlanOf(loose)[i] == OutsetOf(loose)[|loose| - 1 - i].(priority := 56)
    {
      var first, second := LaidRecords(loose, i);
    }
  }

  /** The second cycle plans the jobs that are left in the reverse order. */
  lemma {:induction false} LeftPasses(loose: seq<bool>)
    ensures |PassedJobs(LaidFirst(loose), 0)| == |loose| == |PassedJobs(Restored(AbortedOf(loose)), 0)|
    ensures forall q :: 0 <= q < |loose| ==>
              && PassedJobs(LaidFirst(loose), 0)[q] == LaidFirst(loose)[|loose| - 1 - q].(priority := 56)
              && PassedJobs(Restored(AbortedOf(loose)), 0)[q].fixedNames == FirstTime(loose)[|loose| - 1 - q].names
  {
    hide LaidFirst;
    forall i | 0 <= i < |loose|
      ensures Prioritised(LaidFirst(loose)[i], 0) && Prioritised(Restored(AbortedOf(loose))[i], 0)
    {
      var first, second := LaidRecords(loose, i);
    }
    PassReverses(LaidFirst(loose), 0);
    PassReverses(Restored(AbortedOf(loose)), 0);
  }

  lemma {:induction false} FirstCycleDrops(loose: seq<bool>)
    ensures Dropped(PlanOf(loose), LaidFirst(loose), |loose|)
  {
    hide LaidFirst;
    forall i | 0 <= i < |loose|
      ensures Replanned(PlanOf(loose)[i], LaidFirst(loose)[i])
    {
      var first, second := LaidRecords(loose, i);
    }
  }

  lemma {:induction false} FirstCyclePlans(loose: seq<bool>, most: int)
    requires most >= |loose|
    ensures WellPlanned(Fives(|loose|), PlanOf(loose), LaidFirst(loose), Same(NoLimit), RoomyCfg(5 * |loose| + 1, most))
  {
    SaneTimes(loose);
    hide Laid, ComesFirst, Sane;
    forall i | 0 <= i < |loose|
      ensures PlanOf(loose)[i].fixedNames == FirstTime(loose)[i].names && ComesFirst(Fives(|loose|), FirstTime(loose), i, 5 * |loose| + 1)
    {
      FirstComesFirst(loose, i);
    }
    LaidIsPlanned(Fives(|loose|), PlanOf(loose), FirstTime(loose), 5 * |loose| + 1, most);
  }

  lemma {:induction false} BookedOnOwnNode(slots0: seq<Slot>, table: seq<Slot>, rs: seq<Single1>, est: int)
    requires Sane(slots0, rs) && est > 0 && BookedUsed(slots0, table, rs, est)
    ensures |table| == |slots0| && forall x :: 0 <= x < |table| ==> table[x].node == x && table[x].time >= 0
  {
    forall x | 0 <= x < |table|
      ensures table[x].node == x && table[x].time >= 0
    {
      assert BookedSlot(slots0, table[x], Used(rs, x), x, est);
    }
  }

  /** Behind laid jobs, one that is too wide for every node finds no slots. */
  lemma {:induction false} TooWideStops(slots0: seq<Slot>, rs: seq<Single1>, est: int, was: seq<Job>, id: int)
    requires Sane(slots0, rs) && est > 0 && |was| == |rs| + 1 && was[|rs|] == TooWide(id, est)
    ensures NoSlotsFor(slots0, was, Laid(slots0, rs, est), |rs|, Same(NoLimit))
  {
    LaidTable(slots0, rs, est);
    hide Laid, TableAfter, Used, FitnessRow, Hopeless, Alike, BookedCpus, BookedUsed, BookedSlot, Sane, NoSlotsFor, TooWide;
    var js := Laid(slots0, rs, est);
    var table := TableAfter(slots0, js);
    BookedOnOwnNode(slots0, table, rs, est);
    TooWideIsHopeless(table, id, est);
    RowsFit(|rs|, |slots0|);
    NoSlotsAtEnd(slots0, was, js, Same(NoLimit));
  }

  lemma {:induction false} NoSlotsAtEnd(slots0: seq<Slot>, was: seq<Job>, js: seq<Job>, fit: (nat, nat) -> Fitness)
    requires |was| == |js| + 1 && Hopeless(TableAfter(slots0, js), was[|js|], FitnessRow(fit, |js|, |slots0|))
    ensures NoSlotsFor(slots0, was, js, |js|, fit)
  {
    hide Hopeless, TableAfter, FitnessRow;
    assert js[..|js|] == js;
  }

  lemma {:induction false} FirstCycleStops(loose: seq<bool>)
    ensures NoSlotsFor(Fives(|loose|), PlanOf(loose), LaidFirst(loose), |loose|, Same(NoLimit))
  {
    SaneTimes(loose);
    hide Laid, Sane, NoSlotsFor, PlanOf;
    TooWideStops(Fives(|loose|), FirstTime(loose), 5 * |loose| + 1, PlanOf(loose), |loose|);
  }

  lemma {:induction false} FirstCycleAborts(loose: seq<bool>, nodes: seq<Node>, most: int)
    requires ValidNodes(nodes) && Table(nodes, 0) == Fives(|loose|) && most >= |loose|
    ensures IsAborted(nodes, 0, AbortedOf(loose), Same(NoLimit), RoomyCfg(5 * |loose| + 1, most))
  {
    FirstCycleDrops(loose);
    FirstCyclePlans(loose, most);
    FirstCycleStops(loose);
    hide Table, LaidFirst, PlanOf, Dropped, WellPlanned, NoSlotsFor, RoomyCfg;
    assert LaidFirst(loose)[..|loose|] == LaidFirst(loose);
  }

  lemma {:induction false} ReplannedRecord(passed: Job, id: int, slot: nat, est: int, names: seq<Option<int>>, first: int, second: int)
    requires passed == Record(id, slot, est, first).(priority := 56)
    ensures passed.fixedNames == [Some(slot)] && Replanned(passed, Record(id, slot, est, second))
  {
  }

  lemma {:induction false} SecondCycleReplans(loose: seq<bool>, q: nat)
    requires q < |loose|
    ensures |PassedJobs(LaidFirst(loose), 0)| == |loose|
    ensures PassedJobs(LaidFirst(loose), 0)[q].fixedNames == SecondTime(loose)[q].names
    ensures Replanned(PassedJobs(LaidFirst(loose), 0)[q], LaidAgain(loose)[q])
  {
    hide PassedJobs, LaidFirst, LaidAgain, Record, Replanned, NodeFor;
    LeftPasses(loose);
    var i := |loose| - 1 - q;
    var first, second := LaidRecords(loose, i);
    ReplannedRecord(PassedJobs(LaidFirst(loose), 0)[q], i, NodeFor(loose, i), 5 * |loose| + 1, SecondTime(loose)[q].names, first, second);
  }

  lemma {:induction false} SecondCyclePlans(loose: seq<bool>, most: int)
    requires most >= |loose|
    ensures WellPlanned(Fives(|loose|), PassedJobs(LaidFirst(loose), 0), LaidAgain(loose), Same(NoLimit), RoomyCfg(5 * |loose| + 1, most))
    ensures |PassedJobs(LaidFirst(loose), 0)| == |LaidAgain(loose)|
    ensures forall q :: 0 <= q < |loose| ==> Replanned(PassedJobs(LaidFirst(loose), 0)[q], LaidAgain(loose)[q])
  {
    hide PassedJobs, Laid, LaidFirst, Replanned, RoomyCfg, NodeFor;
    var passed := PassedJobs(LaidFirst(loose), 0);
    LeftPasses(loose);
    SaneTimes(loose);
    forall q | 0 <= q < |loose|
      ensures passed[q].fixedNames == SecondTime(loose)[q].names && ComesFirst(Fives(|loose|), SecondTime(loose), q, 5 * |loose| + 1)
      ensures Replanned(passed[q], LaidAgain(loose)[q])
    {
      SecondCycleReplans(loose, q);
    }
    LaidIsPlanned(Fives(|loose|), passed, SecondTime(loose), 5 * |loose| + 1, most);
  }

  lemma {:induction false} LooseOfPlan(loose: seq<bool>, m: nat)
    requires m <= |loose|
    ensures LooseFlags(PlanOf(loose)[..m]) == loose[..m]
  {
    hide PlanOf, LaidFirst, Asked, TooWide;
    if m > 0 {
      hide LooseFlags;
      LooseOfPlan(loose, m - 1);
      LooseInPlan(loose, m - 1);
      LooseFlagsNext(PlanOf(loose), m - 1);
      assert loose[..m] == loose[..m - 1] + [loose[m - 1]];
    }
  }

  lemma {:induction false} LooseInPlan(loose: seq<bool>, i: nat)
    requires i < |loose|
    ensures PlanOf(loose)[i].state == Queued && (None in PlanOf(loose)[i].fixedNames) == loose[i]
  {
    var first, second := LaidRecords(loose, i);
    hide LaidFirst;
    assert PlanOf(loose)[i] == Asked(loose, i).(priority := 56);
  }

  lemma {:induction false} LooseFlagsNext(js: seq<Job>, m: nat)
    requires m < |js|
    ensures LooseFlags(js[..m + 1]) == LooseFlags(js[..m]) + if js[m].state == Queued then [None in js[m].fixedNames] else []
  {
    assert js[..m + 1][..m] == js[..m];
  }

  /** A loose job, and a slot that no job in front of it uses in the second cycle. */
  ghost predicate Passed(loose: seq<bool>, u: nat, y: nat) {
    && u < |loose| && y < |loose| && loose[u] && !Used(SecondTime(loose)[..|loose| - 1 - u], y)
    && if LooseBehind(loose) then u >= 1 && y == 0 && !Used(SecondTime(loose)[..|loose| - 1 - u], u)
       else u == 0 && y == 1 && Used(SecondTime(loose)[..|loose| - 1], 0)
  }

  lemma {:induction false} SomePassed(loose: seq<bool>) returns (u: nat, y: nat)
    requires |loose| >= 2 && true in loose
    ensures Passed(loose, u, y)
  {
    if LooseBehind(loose) {
      u :| 1 <= u < |loose| && loose[u];
      y := 0;
    } else {
      var i :| 0 <= i < |loose| && loose[i];
      assert i == 0;
      u, y := 0, 1;
    }
    var rs := SecondTime(loose)[..|loose| - 1 - u];
    assert forall a :: 0 <= a < |rs| ==> rs[a].slot == NodeFor(loose, |loose| - 1 - a);
    assert u == 0 ==> rs[|rs| - 1].slot == NodeFor(loose, 1);
  }

  lemma {:induction false} LaidAgainFront(loose: seq<bool>, q: nat)
    requires q <= |loose|
    ensures Sane(Fives(|loose|), SecondTime(loose)[..q])
    ensures LaidAgain(loose)[..q] == Laid(Fives(|loose|), SecondTime(loose)[..q], 5 * |loose| + 1)
    ensures BookedUsed(Fives(|loose|), TableAfter(Fives(|loose|), LaidAgain(loose)[..q]), SecondTime(loose)[..q], 5 * |loose| + 1)
  {
    hide Laid, TableAfter, Alike, BookedCpus, BookedUsed;
    SaneTimes(loose);
    LaidPrefix(Fives(|loose|), SecondTime(loose), 5 * |loose| + 1, q);
    LaidTable(Fives(|loose|), SecondTime(loose)[..q], 5 * |loose| + 1);
  }

  lemma {:induction false} LateIn(loose: seq<bool>, u: nat, y: nat, table: seq<Slot>)
    requires Passed(loose, u, y)
    requires BookedUsed(Fives(|loose|), table, SecondTime(loose)[..|loose| - 1 - u], 5 * |loose| + 1)
    ensures table[y].time < table[NodeFor(loose, u)].time
  {
    hide Used;
    var rs, n, est := SecondTime(loose)[..|loose| - 1 - u], NodeFor(loose, u), 5 * |loose| + 1;
    assert BookedSlot(Fives(|loose|), table[y], Used(rs, y), y, est);
    assert BookedSlot(Fives(|loose|), table[n], Used(rs, n), n, est);
  }

  /** It starts later than that slot is free. */
  lemma {:induction false} PinnedLate(loose: seq<bool>, u: nat, y: nat)
    requires Passed(loose, u, y)
    ensures var table := TableAfter(Fives(|loose|), LaidAgain(loose)[..|loose| - 1 - u]);
            table[y].time < LaidAgain(loose)[|loose| - 1 - u].startTime
  {
    hide LaidAgain, LaidFirst, TableAfter, BookedUsed, Used, SecondTime, NodeFor, LooseBehind;
    var first, second := LaidRecords(loose, u);
    LaidAgainFront(loose, |loose| - 1 - u);
    LateIn(loose, u, y, TableAfter(Fives(|loose|), LaidAgain(loose)[..|loose| - 1 - u]));
  }

  lemma {:induction false} LateHere(loose: seq<bool>, most: int, u: nat, y: nat)
    requires Passed(loose, u, y) && most > |loose|
    ensures var q := |loose| - 1 - u;
            && LaidAgain(loose)[q].state == Queued
            && !BestStart(Fives(|loose|), [None], LaidAgain(loose)[..q], LaidAgain(loose)[q], Fits(|loose|), RoomyCfg(5 * |loose| + 1, most))
  {
    hide LaidAgain, LaidFirst, Laid, TableAfter, BookedUsed, Used, SecondTime, NodeFor, LooseBehind, BestStart, RoomyCfg, Sane;
    PinnedLate(loose, u, y);
    var first, second := LaidRecords(loose, u);
    LaidAgainFront(loose, |loose| - 1 - u);
    NotBest(Fives(|loose|), SecondTime(loose)[..|loose| - 1 - u], LaidAgain(loose)[|loose| - 1 - u], y, 5 * |loose| + 1, most);
  }

  lemma {:induction false} LateIsNotBest(loose: seq<bool>, most: int)
    requires |loose| >= 2 && true in loose && most > |loose|
    ensures !WellStarted(Fives(|loose|), PassedJobs(Restored(AbortedOf(loose)), 0), LaidAgain(loose), Same(NoLimit), RoomyCfg(5 * |loose| + 1, most))
  {
    hide LaidAgain, LaidFirst, PlanOf, PassedJobs, BestStart, RoomyCfg, FitnessRow, Restored, SecondTime, NodeFor, LooseBehind, Used;
    var u, y := SomePassed(loose);
    LateHere(loose, most, u, y);
    LeftPasses(loose);
    RowsFit(|loose| - 1 - u, |loose|);
    var q, passed := |loose| - 1 - u, PassedJobs(Restored(AbortedOf(loose)), 0);
    assert passed[q].fixedNames == FirstTime(loose)[u].names == [None];
  }

  lemma {:induction false} RetriedOf(loose: seq<bool>, nodes: seq<Node>, most: int)
    requires ValidNodes(nodes) && Table(nodes, 0) == Fives(|loose|) && most >= |loose|
    ensures Retried(nodes, 0, OutsetOf(loose) + [TooWide(|loose|, 5 * |loose| + 1)], AbortedOf(loose), LaidAgain(loose), NoLimit,
                    RoomyCfg(5 * |loose| + 1, most))
  {
    OutsetPasses(loose);
    FirstCycleAborts(loose, nodes, most);
    SecondCyclePlans(loose, most);
    hide Table, PassedJobs, IsAborted, WellPlanned, LaidFirst, LaidAgain, RoomyCfg, Replanned, PlanOf, OutsetOf, TooWide;
  }

  /**
   Two jobs that were not fixed, on two nodes that are free at 0 and 5, in front of
   one that is dropped: in the retry the second one comes first, with nothing booked,
   and still starts at 5 on the node that its first plan gave to it.
   */
  lemma {:induction false} SecondIsPinned() returns (nodes: seq<Node>, js0: seq<Job>, c: Aborted, after: seq<Job>, cfg: Config)
    ensures Retried(nodes, 0, js0, c, after, NoLimit, cfg) && Table(nodes, 0) == [Slot(0, 0), Slot(5, 1)]
    ensures |after| == 2 && after[0].jobId == c.plan[1].jobId && c.plan[1].fixedNames == [None]
    ensures after[0].nodes == [Some(1)] && after[0].startTime == 5
  {
    var loose := [true, true];
    hide Retried, Table, LaidAgain, LaidFirst, OutsetOf, TooWide, RoomyCfg;
    nodes := FiveNodes(2);
    RetriedOf(loose, nodes, 3);
    js0, c, after, cfg := OutsetOf(loose) + [TooWide(2, 11)], AbortedOf(loose), LaidAgain(loose), RoomyCfg(11, 3);
    var first, second := LaidRecords(loose, 1);
    assert LooseBehind(loose) by {
      assert loose[1];
    }
    assert after[..0] == [];
    assert TableAfter(Fives(2), []) == Fives(2);
  }

  /** For every other number of loose jobs there is a retry that starts one of them late. */
  lemma {:induction false} OtherRetryIsLate(loose: seq<bool>)
    requires !Harmless(loose)
    ensures !AlwaysBest(loose)
  {
    hide Retried, Table, PassedJobs, WellStarted, LaidAgain, Restored, RoomyCfg, LooseFlags, PlanOf, LaidFirst, OutsetOf, TooWide, AlwaysBest;
    var nodes := FiveNodes(|loose|);
    RetriedOf(loose, nodes, |loose| + 1);
    LooseOfPlan(loose, |loose|);
    assert loose[..|loose|] == loose;
    LateIsNotBest(loose, |loose| + 1);
    var c, cfg := AbortedOf(loose), RoomyCfg(5 * |loose| + 1, |loose| + 1);
    OneIsEnough(loose, nodes, OutsetOf(loose) + [TooWide(|loose|, 5 * |loose| + 1)], c, LaidAgain(loose), cfg);
  }

  lemma {:induction false} OneIsEnough(loose: seq<bool>, nodes: seq<Node>, js0: seq<Job>, c: Aborted, after: seq<Job>, cfg: Config)
    requires Retried(nodes, 0, js0, c, after, NoLimit, cfg) && LooseFlags(c.plan[..c.k]) == loose
    requires !WellStarted(Table(nodes, 0), PassedJobs(Restored(c), 0), after, Same(NoLimit), cfg)
    ensures !AlwaysBest(loose)
  {
    hide Retried, Table, PassedJobs, WellStarted, Restored, LooseFlags;
  }

  /**
   After a cycle that drops a job, the next one gives every job the best start of
   its own request, whatever the cluster and the order of the jobs, if and only if
   the jobs planned in front of the dropped one were all fixed to nodes, or there
   was at most one of them.
   */
  lemma {:induction false} RetryIff(loose: seq<bool>)
    ensures AlwaysBest(loose) <==> Harmless(loose)
  {
    if Harmless(loose) {
      hide Retried, WellStarted, PassedJobs, Restored, Table, Harmless;
      forall nodes, now, js0, c: Aborted, after: seq<Job>, fit: nat -> Fitness, cfg: Config |
        Retried(nodes, now, js0, c, after, fit, cfg) && LooseFlags(c.plan[..c.k]) == loose
        ensures WellStarted(Table(nodes, now), PassedJobs(Restored(c), now), after, Same(fit), cfg)
      {
        HarmlessIsBest(nodes, now, js0, c, after, fit, cfg);
      }
    } else {
      OtherRetryIsLate(loose);
    }
  }
}
