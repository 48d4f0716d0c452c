/**
 What a dropped job does to the others (SchedulerRealm.cpp:764-766 with
 plan_operations.cpp:704-715): the jobs in front of it were planned before the cycle
 ended, and are fixed to the nodes of that plan when the next cycle begins.
 */
module Retry {
  import opened PlanLists
  import opened PlanJobs
  import opened SlotSelection
  import opened SlotRuns
  import opened SlotBooking
  import opened SlotTable
  import opened Limits
  import opened LimitRuns
  import opened JobPlanning
  import opened PlanSafety
  import opened PlanRebuild
  import opened JobOrder
  import opened SchedUpdate

  // ----- the retry

  /** The fitness of a slot, whichever job it is for. */
  function Same(fit: nat -> Fitness): (nat, nat) -> Fitness {
    (turn: nat, slot: nat) => fit(slot)
  }

  /** A cycle that drops one job, and a cycle after it that drops none. */
  ghost predicate Retried(nodes: seq<Node>, now: int, js0: seq<Job>, c: Aborted, after: seq<Job>, fit: nat -> Fitness, cfg: Config) {
    && ValidNodes(nodes) && now >= 0
    && c.plan == PassedJobs(js0, now) && IsAborted(nodes, now, c, Same(fit), cfg)
    && WellPlanned(Table(nodes, now), PassedJobs(c.left, now), after, Same(fit), cfg)
    && |after| == |c.left| && forall a :: 0 <= a < |after| ==> |PassedJobs(c.left, now)| == |after| && Replanned(PassedJobs(c.left, now)[a], after[a])
  }

  /** The list that the aborted cycle leaves, with the nodes to which jobs were fixed in front of it. */
  function Restored(c: Aborted): (js: seq<Job>)
    requires c.k < |c.plan| && |c.left| == |c.plan| - 1
    ensures |js| == |c.left|
    ensures forall i :: 0 <= i < |js| ==> js[i] == c.left[i].(fixedNames := c.plan[if i < c.k then i else i + 1].fixedNames)
  {
    seq(|c.left|, i requires 0 <= i < |c.left| => c.left[i].(fixedNames := c.plan[if i < c.k then i else i + 1].fixedNames))
  }

  /**
   The job begins as early as its request allows behind the jobs in front of it: at
   the least instant that has the slots and that the limits let it have, as far as
   no slot depends on the memory exception.
   */
  ghost predicate BestStart(slots0: seq<Slot>, names: seq<Option<int>>, before: seq<Job>, job: Job, fit: seq<Fitness>, cfg: Config) {
    var table := TableAfter(slots0, before);
    && |fit| == |slots0| && cfg.Valid() && job.reqPpn >= 1 && RequestOf(job, cfg).cls < |cfg.total|
    && (NoException(FirstMarks(names, job.reqPpn, table, fit)) ==>
          exists ready :: LeastFit(table, FirstMarks(names, job.reqPpn, table, fit), job.reqPpn, names, ready) &&
                          LeastUnblocked(before, ready, job.startTime, RequestOf(job, cfg), cfg))
  }

  ghost predicate WellStarted(slots0: seq<Slot>, was: seq<Job>, js: seq<Job>, fit: (nat, nat) -> Fitness, cfg: Config) {
    && |js| <= |was|
    && forall a :: 0 <= a < |js| && js[a].state == Queued ==>
         BestStart(slots0, was[a].fixedNames, js[..a], js[a], FitnessRow(fit, a, |slots0|), cfg)
  }

  /** Which of the planned jobs of a list were not fixed to nodes. */
  function LooseFlags(js: seq<Job>): seq<bool> {
    if js == [] then []
    else
      var l := |js| - 1;
      LooseFlags(js[..l]) + if js[l].state == Queued then [None in js[l].fixedNames] else []
  }

  /** At most one job was planned in front of the dropped one, or all of these were fixed to nodes. */
  predicate Harmless(loose: seq<bool>) {
    |loose| <= 1 || true !in loose
  }

  /** Every retry after so many planned jobs, loose or not, gives every job the best start of its request. */
  ghost predicate AlwaysBest(loose: seq<bool>) {
    forall nodes, now, js0, c: Aborted, after: seq<Job>, fit: nat -> Fitness, cfg: Config ::
      Retried(nodes, now, js0, c, after, fit, cfg) && LooseFlags(c.plan[..c.k]) == loose ==>
        WellStarted(Table(nodes, now), PassedJobs(Restored(c), now), after, Same(fit), cfg)
  }

  // ----- what the pass does to a list that was passed before

  lemma {:induction false} NoneFlagged<X>(xs: seq<X>, flags: seq<bool>)
    requires |flags| == |xs| && forall i :: 0 <= i < |flags| ==> !flags[i]
    ensures FlaggedReversed(xs, flags) == [] && Unflagged(xs, flags) == xs
  {
    if xs != [] {
      NoneFlagged(xs[..|xs| - 1], flags[..|xs| - 1]);
    }
  }

  lemma {:induction false} OneFlagged<X>(xs: seq<X>, flags: seq<bool>, i: nat)
    requires |flags| == |xs| && i < |xs| && forall j :: 0 <= j < |flags| ==> (flags[j] <==> j == i)
    ensures FlaggedReversed(xs, flags) == [xs[i]] && Unflagged(xs, flags) == Delete(xs, i)
  {
    var l := |xs| - 1;
    if i == l {
      NoneFlagged(xs[..l], flags[..l]);
    } else {
      OneFlagged(xs[..l], flags[..l], i);
      assert Delete(xs, i) == Delete(xs[..l], i) + [xs[l]];
    }
  }

  /** A job that the pass has moved is not moved again before it is planned. */
  lemma {:induction false} PassedOnce(js: seq<Job>, now: int, p: nat)
    requires p < |PassedJobs(js, now)|
    ensures !Prioritised(PassedJobs(js, now)[p], now)
  {
    PassedLength(js, now);
    var i := PassedAt(js, now, p);
  }

  /** Only job i may be moved. */
  lemma {:induction false} PassedWithOne(js: seq<Job>, now: int, i: nat)
    requires i < |js| && forall j :: 0 <= j < |js| && j != i ==> !Prioritised(js[j], now)
    ensures PassedJobs(js, now) == if Prioritised(js[i], now) then [js[i].(priority := 56)] + Delete(js, i) else js
  {
    var flags := Flags(js, now);
    var ms := Marked(js, flags);
    if Prioritised(js[i], now) {
      OneFlagged(ms, flags, i);
      assert Delete(ms, i) == Delete(js, i);
    } else {
      NoneFlagged(ms, flags);
      assert ms == js;
    }
  }

  // ----- the only planned job

  lemma {:induction false} NoneBooked(slots0: seq<Slot>, js: seq<Job>)
    requires forall a :: 0 <= a < |js| ==> js[a].state != Queued
    ensures TableAfter(slots0, js) == slots0
  {
    if js != [] {
      NoneBooked(slots0, js[..|js| - 1]);
    }
  }

  /** Marks of the same table: being fixed to nodes only prohibits others. */
  lemma {:induction false} PinnedMarks(names: seq<Option<int>>, pinned: seq<Option<int>>, ppn: int, slots: seq<Slot>, fit: seq<Fitness>)
    requires |fit| == |slots| && None in names && None !in pinned
    ensures forall x :: 0 <= x < |slots| ==>
              var m := FirstMarks(names, ppn, slots, fit)[x];
              FirstMarks(pinned, ppn, slots, fit)[x] == (if Some(slots[x].node) in pinned || m == -1 || m == -8 || m == -9 then m else PROHIBITED)
    ensures NoException(FirstMarks(names, ppn, slots, fit)) ==> NoException(FirstMarks(pinned, ppn, slots, fit))
  {
    hide CoresOf;
  }

  lemma {:induction false} PinnedUsable(slots: seq<Slot>, old': seq<int>, new': seq<int>, n: int, t: int)
    requires |old'| == |slots| == |new'| && forall x :: 0 <= x < |slots| && IsFresh(new'[x]) ==> old'[x] == new'[x]
    ensures UsableBy(slots, new', n, t) <= UsableBy(slots, old', n, t)
  {
    forall i | i in UsableBy(slots, new', n, t)
      ensures i in UsableBy(slots, old', n, t)
    {
      if new'[i] == NOT_NOW {
        var j :| 0 <= j < |slots| && new'[j] == 0 && slots[j].node == slots[i].node && slots[i].time < slots[j].time <= t;
        assert OutlastedBy(slots, old', i, t);
      }
    }
  }

  /** A job fixed to the nodes it was given can start no earlier than before. */
  lemma {:induction false} PinnedNoEarlier(slots: seq<Slot>, fit: seq<Fitness>, names: seq<Option<int>>, pinned: seq<Option<int>>, ppn: nat, t: int)
    requires |fit| == |slots| && None in names && None !in pinned && |pinned| == |names|
    requires CanStart(slots, FirstMarks(pinned, ppn, slots, fit), ppn, pinned, t)
    ensures CanStart(slots, FirstMarks(names, ppn, slots, fit), ppn, names, t)
  {
    PinnedMarks(names, pinned, ppn, slots, fit);
    hide FirstMarks, Base;
    var old', new' := FirstMarks(names, ppn, slots, fit), FirstMarks(pinned, ppn, slots, fit);
    var nodes: seq<Option<int>> :| PlacedBy(slots, new', ppn, pinned, nodes, t);
    forall n: int
      ensures RoomOn(slots, old', ppn, n, multiset(nodes)[Some(n)], t)
    {
      PinnedUsable(slots, old', new', n, t);
      assert RoomOn(slots, new', ppn, n, multiset(nodes)[Some(n)], t);
      CardOfSubset(UsableBy(slots, new', n, t), UsableBy(slots, old', n, t));
      CardOfSubset(AvailableBy(slots, new', n, t), AvailableBy(slots, old', n, t));
    }
    assert PlacedBy(slots, old', ppn, names, nodes, t);
  }

  /** ... and at that instant it can. */
  lemma {:induction false} PinnedAsEarly(slots: seq<Slot>, fit: seq<Fitness>, names: seq<Option<int>>, ppn: nat, sel: Selection)
    requires |fit| == |slots| && None in names && NoException(FirstMarks(names, ppn, slots, fit))
    requires Selected(slots, FirstMarks(names, ppn, slots, fit), ppn, names, sel)
    ensures None !in sel.nodes && |sel.nodes| == |names|
    ensures CanStart(slots, FirstMarks(sel.nodes, ppn, slots, fit), ppn, sel.nodes, sel.start)
  {
    hide LeastFit, AllGiven, CanStart, SafeShape;
    var old' := FirstMarks(names, ppn, slots, fit);
    var takes :| TakenBy(slots, old', ppn, sel, takes);
    assert None !in sel.nodes;
    PinnedMarks(names, sel.nodes, ppn, slots, fit);
    hide FirstMarks;
    var new' := FirstMarks(sel.nodes, ppn, slots, fit);
    forall k | 0 <= k < |takes|
      ensures GivenBy(slots, new', sel.nodes[k], takes[k])
    {
      assert GivenBy(slots, old', sel.nodes[k], takes[k]);
    }
    assert Given(slots, new', ppn, sel.nodes, sel.latest, takes);
    var v := Begin(new').(nodes := sel.nodes, latest := sel.latest, takes := takes);
    GivenSuffice(slots, new', ppn, sel.nodes, v, sel.start);
  }

  /** So the least start of a job that is fixed to the nodes it was given is the one it had. */
  lemma {:induction false} PinnedIsLeast(slots: seq<Slot>, fit: seq<Fitness>, names: seq<Option<int>>, ppn: nat, sel: Selection, s: int)
    requires |fit| == |slots| && None in names && NoException(FirstMarks(names, ppn, slots, fit))
    requires Selected(slots, FirstMarks(names, ppn, slots, fit), ppn, names, sel)
    requires LeastFit(slots, FirstMarks(sel.nodes, ppn, slots, fit), ppn, sel.nodes, s)
    ensures s == sel.start && LeastFit(slots, FirstMarks(names, ppn, slots, fit), ppn, names, s)
  {
    PinnedAsEarly(slots, fit, names, ppn, sel);
    hide CanStart, FirstMarks, TakenBy;
    PinnedNoEarlier(slots, fit, names, sel.nodes, ppn, s);
  }

  lemma {:induction false} SameRows(fit: nat -> Fitness, i: nat, j: nat, n: nat)
    ensures FitnessRow(Same(fit), i, n) == FitnessRow(Same(fit), j, n)
  {
  }

  /** A best plan is a best start. */
  lemma {:induction false} BestPlanStarts(slots0: seq<Slot>, names: seq<Option<int>>, before: seq<Job>, job: Job, fit: seq<Fitness>, cfg: Config)
    requires BestPlan(slots0, names, before, job, fit, cfg)
    ensures BestStart(slots0, names, before, job, fit, cfg)
  {
    hide TableAfter, FirstMarks, LeastFit, LeastUnblocked, RunsTo, TakenBy, WalltimeClass;
  }

  lemma {:induction false} WellPlannedStarts(slots0: seq<Slot>, was: seq<Job>, js: seq<Job>, fit: (nat, nat) -> Fitness, cfg: Config)
    requires WellPlanned(slots0, was, js, fit, cfg)
    ensures WellStarted(slots0, was, js, fit, cfg)
  {
    hide BestPlan, BestStart, FitnessRow;
    forall a | 0 <= a < |js| && js[a].state == Queued
      ensures BestStart(slots0, was[a].fixedNames, js[..a], js[a], FitnessRow(fit, a, |slots0|), cfg)
    {
      BestPlanStarts(slots0, was[a].fixedNames, js[..a], js[a], FitnessRow(fit, a, |slots0|), cfg);
    }
  }

  /** When nothing is booked in front of a job that was pinned with nothing booked in front of it, it begins as early as its request allows. */
  lemma {:induction false} PinnedStarts(slots0: seq<Slot>, names: seq<Option<int>>, before: seq<Job>, first: Job,
                                        before': seq<Job>, again: Job, fit: seq<Fitness>, cfg: Config)
    requires TableAfter(slots0, before) == slots0 == TableAfter(slots0, before') && None in names
    requires BestPlan(slots0, names, before, first, fit, cfg)
    requires BestPlan(slots0, first.nodes, before', again, fit, cfg) && again.reqPpn == first.reqPpn
    ensures BestStart(slots0, names, before', again, fit, cfg)
  {
    hide TableAfter, FirstMarks, LeastFit, LeastUnblocked, RunsTo, TakenBy, WalltimeClass, NoException;
    var ppn := first.reqPpn;
    var ready := slots0[again.cpuIndexes[|again.cpuIndexes| - 1]].time;
    if NoException(FirstMarks(names, ppn, slots0, fit)) {
      var sel := SelectionOf(first, slots0[first.cpuIndexes[|first.cpuIndexes| - 1]].time);
      PinnedAsEarly(slots0, fit, names, ppn, sel);
      PinnedMarks(names, sel.nodes, ppn, slots0, fit);
      PinnedIsLeast(slots0, fit, names, ppn, sel, ready);
    }
  }

  // ----- harmless retries

  /** What a retry keeps of the records of the aborted cycle. */
  lemma {:induction false} LeftAt(c: Aborted, i: nat)
    requires Dropped(c.plan, c.left, c.k) && i < |c.left|
    ensures i >= c.k ==> c.left[i] == c.plan[i + 1]
    ensures i < c.k ==> c.left[i].state == c.plan[i].state && c.left[i].reqPpn == c.plan[i].reqPpn
    ensures i < c.k && c.plan[i].state != Queued ==> c.left[i].fixedNames == c.plan[i].fixedNames
    ensures i < c.k && c.plan[i].state == Queued ==>
              c.left[i].fixedNames == if None in c.plan[i].fixedNames then c.left[i].nodes else c.plan[i].fixedNames
  {
    assert i < c.k ==> Replanned(c.plan[i], c.left[i]);
  }

  lemma {:induction false} LooseIs(js: seq<Job>, i: nat)
    requires i < |js| && js[i].state == Queued
    ensures (None in js[i].fixedNames) in LooseFlags(js) && |LooseFlags(js)| >= 1
    ensures |LooseFlags(js)| == 1 ==> forall j :: 0 <= j < |js| && j != i ==> js[j].state != Queued
  {
    var l := |js| - 1;
    if i < l {
      LooseIs(js[..l], i);
      assert forall b :: b in LooseFlags(js[..l]) ==> b in LooseFlags(js);
    } else if |LooseFlags(js)| == 1 {
      NoneLoose(js[..l]);
    }
  }

  lemma {:induction false} NoneLoose(js: seq<Job>)
    ensures LooseFlags(js) == [] ==> forall j :: 0 <= j < |js| ==> js[j].state != Queued
  {
    if js != [] {
      NoneLoose(js[..|js| - 1]);
    }
  }

  /** Some planned job in front of the dropped one was not fixed to nodes. */
  lemma {:induction false} LooseOne(js: seq<Job>) returns (i: nat)
    ensures true in LooseFlags(js) ==> i < |js| && js[i].state == Queued && None in js[i].fixedNames
  {
    i := 0;
    if js != [] {
      var l := |js| - 1;
      i := LooseOne(js[..l]);
      if js[l].state == Queued && None in js[l].fixedNames {
        i := l;
      }
    }
  }

  lemma {:induction false} AllFixedBefore(nodes: seq<Node>, now: int, js0: seq<Job>, c: Aborted, after: seq<Job>, fit: nat -> Fitness, cfg: Config)
    requires Retried(nodes, now, js0, c, after, fit, cfg) && true !in LooseFlags(c.plan[..c.k])
    ensures WellStarted(Table(nodes, now), PassedJobs(Restored(c), now), after, Same(fit), cfg)
  {
    hide WellPlanned, WellStarted, NoSlotsFor, PassedJobs, Dropped, Table;
    DroppedIsQueued(c.plan, c.left, c.k);
    forall i | 0 <= i < |c.left|
      ensures Restored(c)[i] == c.left[i]
    {
      LeftAt(c, i);
      if i < c.k && c.plan[i].state == Queued {
        LooseIs(c.plan[..c.k], i);
      }
    }
    assert Restored(c) == c.left;
    WellPlannedStarts(Table(nodes, now), PassedJobs(c.left, now), after, Same(fit), cfg);
  }

  /** Where the pass puts the only job that it may move. */
  ghost function PlaceOf(js: seq<Job>, i: nat, now: int): nat
    requires i < |js|
  {
    if Prioritised(js[i], now) then 0 else i
  }

  /** The list passed with the original nodes differs from the one passed with the pinned ones in that job only. */
  lemma {:induction false} PassedRestored(c: Aborted, now: int, i: nat)
    requires c.k < |c.plan| && |c.left| == |c.plan| - 1 && i < |c.left|
    requires forall j :: 0 <= j < |c.left| && j != i ==> !Prioritised(c.left[j], now) && Restored(c)[j] == c.left[j]
    ensures |PassedJobs(c.left, now)| == |PassedJobs(Restored(c), now)| == |c.left|
    ensures var q := PlaceOf(c.left, i, now);
            && q < |c.left|
            && PassedJobs(c.left, now)[q].fixedNames == c.left[i].fixedNames
            && PassedJobs(Restored(c), now)[q].fixedNames == Restored(c)[i].fixedNames
            && (forall a :: 0 <= a < |c.left| && a != q ==> PassedJobs(c.left, now)[a] == PassedJobs(Restored(c), now)[a])
            && (forall a :: 0 <= a < q ==> PassedJobs(c.left, now)[a] == c.left[a] && a != i)
            && PassedJobs(c.left, now)[q].reqPpn == c.left[i].reqPpn
  {
    var js, rs := c.left, Restored(c);
    PassedWithOne(js, now, i);
    SamePrioritised(js[i], rs[i], now);
    PassedWithOne(rs, now, i);
    hide PassedJobs, Restored, Prioritised;
    assert rs == js[i := rs[i]];
    MovedAlike(js, rs[i], i, Prioritised(js[i], now));
  }

  lemma {:induction false} SamePrioritised(job: Job, other: Job, now: int)
    requires other == job.(fixedNames := other.fixedNames)
    ensures Prioritised(other, now) == Prioritised(job, now)
  {
  }

  /** The list in which job i may have moved to the front. */
  function Moved(js: seq<Job>, i: nat, moved: bool): seq<Job>
    requires i < |js|
  {
    if moved then [js[i].(priority := 56)] + Delete(js, i) else js
  }

  lemma {:induction false} MovedAlike(js: seq<Job>, other: Job, i: nat, moved: bool)
    requires i < |js|
    ensures var q, a, b := if moved then 0 else i, Moved(js, i, moved), Moved(js[i := other], i, moved);
            && |a| == |b| == |js|
            && a[q] == (if moved then js[i].(priority := 56) else js[i]) && b[q] == (if moved then other.(priority := 56) else other)
            && (forall p :: 0 <= p < |js| && p != q ==> a[p] == b[p])
            && (forall p :: 0 <= p < q ==> a[p] == js[p])
  {
    assert Delete(js[i := other], i) == Delete(js, i);
  }

  /** Only one job was planned in front of the dropped one. */
  lemma {:induction false} OnlyPlanned(nodes: seq<Node>, now: int, js0: seq<Job>, c: Aborted, after: seq<Job>, fit: nat -> Fitness, cfg: Config, i: nat)
    requires Retried(nodes, now, js0, c, after, fit, cfg) && i < c.k && c.plan[i].state == Queued && None in c.plan[i].fixedNames
    requires forall j :: 0 <= j < c.k && j != i ==> c.plan[j].state != Queued
    ensures WellStarted(Table(nodes, now), PassedJobs(Restored(c), now), after, Same(fit), cfg)
  {
    hide NoSlotsFor, PassedJobs, Dropped, Table, BestPlan, BestStart, FitnessRow, Prioritised;
    DroppedIsQueued(c.plan, c.left, c.k);
    var slots0, passed, restored := Table(nodes, now), PassedJobs(c.left, now), PassedJobs(Restored(c), now);
    forall j | 0 <= j < |c.left| && j != i
      ensures !Prioritised(c.left[j], now) && Restored(c)[j] == c.left[j]
    {
      LeftAt(c, j);
      OnlyQueuedPass(c.left[j], now);
      if j >= c.k {
        PassedOnce(js0, now, j + 1);
      }
    }
    PassedRestored(c, now, i);
    LeftAt(c, i);
    var q := PlaceOf(c.left, i, now);
    forall a | 0 <= a < |after| && after[a].state == Queued
      ensures BestStart(slots0, restored[a].fixedNames, after[..a], after[a], FitnessRow(Same(fit), a, |slots0|), cfg)
    {
      if a != q {
        BestPlanStarts(slots0, passed[a].fixedNames, after[..a], after[a], FitnessRow(Same(fit), a, |slots0|), cfg);
      } else {
        OnlyPlannedAgain(slots0, now, c, after, fit, cfg, i, q);
      }
    }
  }

  lemma {:induction false} OnlyQueuedPass(job: Job, now: int)
    ensures job.state != Queued ==> !Prioritised(job, now)
  {
  }

  lemma {:induction false} OnlyPlannedAgain(slots0: seq<Slot>, now: int, c: Aborted, after: seq<Job>, fit: nat -> Fitness, cfg: Config, i: nat, q: nat)
    requires Dropped(c.plan, c.left, c.k) && i < c.k <= |c.left| && WellPlanned(slots0, c.plan, c.left[..c.k], Same(fit), cfg)
    requires c.plan[i].state == Queued && None in c.plan[i].fixedNames
    requires forall j :: 0 <= j < c.k && j != i ==> c.plan[j].state != Queued
    requires var passed := PassedJobs(c.left, now);
             && |after| == |passed| == |c.left| && q < |after| && after[q].state == Queued
             && (forall a :: 0 <= a <= q ==> Replanned(passed[a], after[a]))
             && BestPlan(slots0, passed[q].fixedNames, after[..q], after[q], FitnessRow(Same(fit), q, |slots0|), cfg)
             && passed[q].fixedNames == c.left[i].fixedNames && passed[q].reqPpn == c.left[i].reqPpn
             && (forall a :: 0 <= a < q ==> passed[a] == c.left[a] && a != i) && q <= i
    ensures BestStart(slots0, c.plan[i].fixedNames, after[..q], after[q], FitnessRow(Same(fit), q, |slots0|), cfg)
  {
    hide PassedJobs, BestPlan, BestStart, FitnessRow;
    var passed, row := PassedJobs(c.left, now), FitnessRow(Same(fit), q, |slots0|);
    SameRows(fit, i, q, |slots0|);
    LeftAt(c, i);
    var before := c.left[..c.k][..i];
    assert before == c.left[..i];
    assert BestPlan(slots0, c.plan[i].fixedNames, c.left[..i], c.left[i], row, cfg);
    forall j | 0 <= j < i
      ensures c.left[j].state != Queued
    {
      LeftAt(c, j);
    }
    NoneBooked(slots0, c.left[..i]);
    forall a | 0 <= a < q
      ensures after[a].state != Queued
    {
      assert Replanned(passed[a], after[a]);
    }
    NoneBooked(slots0, after[..q]);
    assert Replanned(passed[q], after[q]);
    PinnedStarts(slots0, c.plan[i].fixedNames, c.left[..i], c.left[i], after[..q], after[q], row, cfg);
  }

  lemma {:induction false} HarmlessIsBest(nodes: seq<Node>, now: int, js0: seq<Job>, c: Aborted, after: seq<Job>, fit: nat -> Fitness, cfg: Config)
    requires Retried(nodes, now, js0, c, after, fit, cfg) && c.k <= |c.plan| && Harmless(LooseFlags(c.plan[..c.k]))
    ensures c.k < |c.plan| && |c.left| == |c.plan| - 1
    ensures WellStarted(Table(nodes, now), PassedJobs(Restored(c), now), after, Same(fit), cfg)
  {
    hide WellPlanned, WellStarted, NoSlotsFor, PassedJobs, Dropped, Table, Replanned;
    DroppedIsQueued(c.plan, c.left, c.k);
    var front := c.plan[..c.k];
    if true in LooseFlags(front) {
      var i := LooseOne(front);
      LooseIs(front, i);
      OnlyPlanned(nodes, now, js0, c, after, fit, cfg, i);
    } else {
      AllFixedBefore(nodes, now, js0, c, after, fit, cfg);
    }
  }
}
