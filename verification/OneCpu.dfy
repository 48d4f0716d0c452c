/** Jobs that ask for one CPU: the loop ends with its first pick, and nothing delays a job where there is room for all. */
module OneCpu {
  import opened PlanLists
  import opened PlanJobs
  import opened SlotSelection
  import opened SlotRuns
  import opened SlotBooking
  import opened GapEmission
  import opened Limits
  import opened LimitRuns
  import opened JobPlanning
  import opened PlanSafety

  /** The selection that consists of one slot. */
  function Single(slots: seq<Slot>, p: nat): Selection
    requires p < |slots|
  {
    Selection(slots[p].time, [Some(slots[p].node)], [p], [p])
  }

  ghost function MarksAfter(slots: seq<Slot>, marks: seq<int>, tmp: seq<int>, node: int, usedUp: bool): (r: seq<int>)
    requires |marks| == |slots|
    ensures Commits(slots, marks, tmp, node, usedUp, r)
  {
    seq(|slots|, x requires 0 <= x < |slots| =>
      if x in tmp then TAKEN else if usedUp && slots[x].node == node && marks[x] != TAKEN then PROHIBITED else marks[x])
  }

  /** The state after the only pick. */
  ghost function OneView(slots: seq<Slot>, init: seq<int>, names: seq<Option<int>>, p: nat): View
    requires |init| == |slots| && p < |slots|
  {
    var u := AfterPick(slots, 1, Begin(init), p, 0);
    assert u.cpus == [p];
    AfterCommit(slots, u, MarksAfter(slots, u.marks, u.tmp, slots[p].node, UsedUp(names, [], slots[p].node)))
  }

  lemma {:induction false} OneStep(slots: seq<Slot>, init: seq<int>, names: seq<Option<int>>, p: nat)
    requires |init| == |slots| && p < |slots| && |names| == 1 && init[p] == 0 && InitialMarks(init)
    requires forall i :: 0 <= i < |slots| && i != p && init[i] == 0 ==> Precedes(slots, p, i)
    ensures StepBy(slots, init, 1, names, Begin(init), p, 0, OneView(slots, init, names, p))
  {
    hide MarksAfter, UsedUp;
    var v := Begin(init);
    assert FirstCandidate(slots, v.marks, v.cur, p);
    assert PickStep(slots, init, 1, v, p, 0);
    var u := AfterPick(slots, 1, v, p, 0);
    assert u.cpus == [p];
  }

  /** The first of the slots that may be picked is the selection. */
  lemma {:induction false} OnePick(slots: seq<Slot>, init: seq<int>, names: seq<Option<int>>, p: nat)
    requires |init| == |slots| && p < |slots| && |names| == 1 && init[p] == 0 && InitialMarks(init)
    requires forall i :: 0 <= i < |slots| && i != p && init[i] == 0 ==> Precedes(slots, p, i)
    requires None !in names ==> Confined(slots, init, multiset(names))
    ensures RunsTo(slots, init, 1, names, Single(slots, p)) && Selected(slots, init, 1, names, Single(slots, p))
  {
    hide MarksAfter, UsedUp, Selected, Confined, StepBy;
    var v, w := Begin(init), OneView(slots, init, names, p);
    OneStep(slots, init, names, p);
    RunGrows(slots, init, 1, names, [v], w);
    var run := [v] + [w];
    assert LoopRun(slots, init, 1, names, run) && EndsWith(run, names, Single(slots, p));
    RunIsSelected(slots, init, 1, names, run, Single(slots, p));
  }

  lemma {:induction false} MarksAreConfined(names: seq<Option<int>>, ppn: nat, slots: seq<Slot>, fit: seq<Fitness>)
    requires |fit| == |slots|
    ensures InitialMarks(FirstMarks(names, ppn, slots, fit))
    ensures None !in names ==> Confined(slots, FirstMarks(names, ppn, slots, fit), multiset(names))
  {
    hide CoresOf;
  }

  /** The record of a planned job. */
  function PlannedJob(id: int, priority: int, ppn: nat, names: seq<Option<int>>, sel: Selection, est: int): Job {
    Job(id, Queued, priority, 0, "", 0, 0, |sel.cpuIndexes|, ppn, |sel.nodes|, est, sel.start, sel.start + est,
        if None in names then sel.nodes else names, None, sel.nodes, sel.latest, sel.cpuIndexes)
  }

  /** Limits that all these jobs keep together, for jobs of this duration. */
  function RoomyCfg(est: int, most: int): (cfg: Config)
    ensures cfg.Valid()
  {
    Config([est], [most], [most])
  }

  /** Jobs of this duration that fit a roomy configuration together. */
  ghost predicate Alike(js: seq<Job>, est: int) {
    forall a :: 0 <= a < |js| ==> js[a].Cpus() >= 0 && js[a].completionTime - js[a].startTime == est
  }

  lemma {:induction false} RoomyClass(est: int, most: int)
    ensures WalltimeClass(RoomyCfg(est, most).thresholds, est) == 0
  {
  }

  /** A job whose selection is the one that the loop ends with, and that nothing delays. */
  lemma {:induction false} SelectionIsBest(slots0: seq<Slot>, names: seq<Option<int>>, js: seq<Job>, id: int, priority: int, ppn: nat, sel: Selection,
                                           fit: seq<Fitness>, est: int, most: int)
    requires |fit| == |slots0| && ppn >= 1 && est > 0 && Alike(js, est)
    requires var table := TableAfter(slots0, js);
             && Selected(table, FirstMarks(names, ppn, table, fit), ppn, names, sel)
             && RunsTo(table, FirstMarks(names, ppn, table, fit), ppn, names, sel)
    requires BookedCpus(js) + PlannedJob(id, priority, ppn, names, sel, est).Cpus() <= most
    ensures BestPlan(slots0, names, js, PlannedJob(id, priority, ppn, names, sel, est), fit, RoomyCfg(est, most))
  {
    hide TableAfter, FirstMarks, RunsTo, TakenBy, LeastFit, WalltimeClass, BookedCpus;
    var job, cfg := PlannedJob(id, priority, ppn, names, sel, est), RoomyCfg(est, most);
    RoomyClass(est, most);
    assert SelectionOf(job, sel.start) == sel;
    assert forall a :: 0 <= a < |js| ==> ClassOf(js[a], cfg) == 0;
    RoomForAll(js, sel.start, RequestOf(job, cfg), cfg);
  }

  /** A job for one CPU takes the slot that is free first. */
  lemma {:induction false} SingleIsBest(slots0: seq<Slot>, names: seq<Option<int>>, js: seq<Job>, id: int, priority: int, p: nat,
                                        fit: seq<Fitness>, est: int, most: int)
    requires |fit| == |slots0| && est > 0 && Alike(js, est) && |names| == 1 && p < |slots0|
    requires var table := TableAfter(slots0, js);
             && FirstMarks(names, 1, table, fit)[p] == 0
             && forall i :: 0 <= i < |table| && i != p && FirstMarks(names, 1, table, fit)[i] == 0 ==> Precedes(table, p, i)
    requires BookedCpus(js) + 1 <= most
    ensures BestPlan(slots0, names, js, PlannedJob(id, priority, 1, names, Single(TableAfter(slots0, js), p), est), fit, RoomyCfg(est, most))
  {
    hide TableAfter, FirstMarks, RunsTo, Selected, BookedCpus, Confined;
    var table := TableAfter(slots0, js);
    MarksAreConfined(names, 1, table, fit);
    OnePick(table, FirstMarks(names, 1, table, fit), names, p);
    SelectionIsBest(slots0, names, js, id, priority, 1, Single(table, p), fit, est, most);
  }
}
