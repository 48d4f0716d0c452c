/**
 When the recorded slots of a job are the ones it was given (plan_operations.cpp):
 the record is kept in the order of times over all nodes, and turning to another
 node cuts off its end, whichever node the slots there belong to.
 */
module SlotLoss {
  import opened PlanLists
  import opened PlanJobs
  import opened SlotSelection
  import opened SlotRuns

  // ----- an exact condition on a run

  /** The loop turns to another node in this step. */
  ghost predicate Switches(v: View, w: View) {
    w.cur.attempt != v.cur.attempt
  }

  /** Whenever the loop turns to another node, the slots left behind are no earlier than those given. */
  ghost predicate SafeSwitches(slots: seq<Slot>, run: seq<View>) {
    forall i :: 0 <= i < |run| - 1 && Switches(run[i], run[i + 1]) ==> NoneEarlier(slots, run[i])
  }

  lemma {:induction false} SoundStep(slots: seq<Slot>, init: seq<int>, ppn: nat, fixedNames: seq<Option<int>>, v: View, w: View)
    requires Sound(slots, init, ppn, v) && |v.tmp| < ppn && LoopStep(slots, init, ppn, fixedNames, v, w)
    ensures Sound(slots, init, ppn, w) && |w.tmp| < ppn
    ensures |w.nodes| >= |v.nodes| && (|w.nodes| == |v.nodes| ==> w.tmp != [])
    ensures Exact(slots, v) && (Switches(v, w) ==> NoneEarlier(slots, v)) ==> Exact(slots, w)
    ensures Lossy(v) || (Exact(slots, v) && Switches(v, w) && !NoneEarlier(slots, v)) ==> Lossy(w)
  {
    hide StepBy, Sound, Exact, Lossy, NoneEarlier;
    var p: nat, at: nat :| StepBy(slots, init, ppn, fixedNames, v, p, at, w);
    SoundPickOf(slots, init, ppn, fixedNames, v, p, at, w);
    var u := AfterPick(slots, ppn, v, p, at);
    if |u.tmp| >= ppn {
      SoundCommitOf(slots, init, ppn, fixedNames, v, p, at, w);
    }
  }

  /** The pick of a step. */
  lemma {:induction false} SoundPickOf(slots: seq<Slot>, init: seq<int>, ppn: nat, fixedNames: seq<Option<int>>, v: View, p: nat, at: nat, w: View)
    requires Sound(slots, init, ppn, v) && |v.tmp| < ppn && StepBy(slots, init, ppn, fixedNames, v, p, at, w)
    ensures |v.marks| == |slots| && v.cur.Valid(|slots|) && p < |slots| && Base(|v.nodes|, ppn) <= |v.cpus| && at <= |Kept(slots, ppn, v, p)|
    ensures var u := AfterPick(slots, ppn, v, p, at);
            && Sound(slots, init, ppn, u) && 1 <= |u.tmp| <= ppn && u.cur.considered == Some(slots[p].node)
            && (|u.tmp| < ppn ==> w == u) && w.cur.attempt == u.cur.attempt
            && (Exact(slots, v) && (Switches(v, w) ==> NoneEarlier(slots, v)) ==> Exact(slots, u))
            && (Lossy(v) || (Exact(slots, v) && Switches(v, w) && !NoneEarlier(slots, v)) ==> Lossy(u))
  {
    SoundPick(slots, init, ppn, v, p, at);
    hide Filling, Ranked, Paced, Exact, Lossy, NoneEarlier, UsableSlots, MarksOf, InitialMarks, PickStep, Base, Commits;
    UsableMeans(slots, init, v.cpus);
    if Exact(slots, v) {
      if Switches(v, w) && !NoneEarlier(slots, v) {
        SwitchLoses(slots, init, ppn, v, p, at);
      } else {
        PickKeepsExact(slots, init, ppn, v, p, at);
      }
    }
    if Lossy(v) {
      LossStays(slots, init, ppn, v, p, at);
    }
  }

  /** The commit of a step that completes a node. */
  lemma {:induction false} SoundCommitOf(slots: seq<Slot>, init: seq<int>, ppn: nat, fixedNames: seq<Option<int>>, v: View, p: nat, at: nat, w: View)
    requires |v.marks| == |slots| && v.cur.Valid(|slots|) && p < |slots| && Base(|v.nodes|, ppn) <= |v.cpus| && at <= |Kept(slots, ppn, v, p)|
    requires StepBy(slots, init, ppn, fixedNames, v, p, at, w) && Sound(slots, init, ppn, AfterPick(slots, ppn, v, p, at))
    requires |AfterPick(slots, ppn, v, p, at).tmp| >= ppn > 0
    ensures Sound(slots, init, ppn, w) && w.tmp == [] && |w.nodes| == |v.nodes| + 1
    ensures Exact(slots, AfterPick(slots, ppn, v, p, at)) ==> Exact(slots, w)
    ensures Lossy(AfterPick(slots, ppn, v, p, at)) ==> Lossy(w)
  {
    hide Sound, Exact, Lossy, PickStep, Base, Commits;
    var u := AfterPick(slots, ppn, v, p, at);
    SoundCommit(slots, init, ppn, u, UsedUp(fixedNames, v.nodes, slots[p].node), w.marks);
    CommitKeepsRecord(slots, u, w.marks);
  }

  /** Every state of a run is sound; the record is exact as long as all switches are safe, and lossy forever after one that is not. */
  lemma {:induction false} RunRecord(slots: seq<Slot>, init: seq<int>, ppn: nat, fixedNames: seq<Option<int>>, run: seq<View>)
    requires LoopRun(slots, init, ppn, fixedNames, run) && InitialMarks(init) && ppn >= 1
    ensures var end := run[|run| - 1];
            && Sound(slots, init, ppn, end) && |end.tmp| < ppn
            && (SafeSwitches(slots, run) ==> Exact(slots, end)) && (!SafeSwitches(slots, run) ==> Lossy(end))
  {
    if |run| == 1 {
      SoundBegins(slots, init, ppn);
    } else {
      var r := run[..|run| - 1];
      RunFront(slots, init, ppn, fixedNames, run);
      RunRecord(slots, init, ppn, fixedNames, r);
      hide Sound, Exact, Lossy, NoneEarlier, LoopStep, LoopRun, Switches;
      SoundStep(slots, init, ppn, fixedNames, run[|run| - 2], run[|run| - 1]);
      SafeSwitchesNext(slots, run);
    }
  }

  lemma {:induction false} SafeSwitchesNext(slots: seq<Slot>, run: seq<View>)
    requires |run| > 1
    ensures SafeSwitches(slots, run) <==>
            SafeSwitches(slots, run[..|run| - 1]) && (Switches(run[|run| - 2], run[|run| - 1]) ==> NoneEarlier(slots, run[|run| - 2]))
  {
    hide NoneEarlier, Switches;
    var r := run[..|run| - 1];
    assert forall i :: 0 <= i < |r| ==> r[i] == run[i];
    if SafeSwitches(slots, run) {
      forall i | 0 <= i < |r| - 1 && Switches(r[i], r[i + 1])
        ensures NoneEarlier(slots, r[i])
      {
        assert Switches(run[i], run[i + 1]);
      }
    }
    if SafeSwitches(slots, r) && (Switches(run[|run| - 2], run[|run| - 1]) ==> NoneEarlier(slots, run[|run| - 2])) {
      forall i | 0 <= i < |run| - 1 && Switches(run[i], run[i + 1])
        ensures NoneEarlier(slots, run[i])
      {
        assert i < |r| - 1 ==> Switches(r[i], r[i + 1]);
      }
    }
  }

  /** The recorded slots are exactly the given ones if and only if every switch of the run was safe. */
  lemma {:induction false} RunExactIff(slots: seq<Slot>, init: seq<int>, ppn: nat, fixedNames: seq<Option<int>>, run: seq<View>)
    requires LoopRun(slots, init, ppn, fixedNames, run) && InitialMarks(init) && ppn >= 1 && run[|run| - 1].tmp == []
    ensures var end := run[|run| - 1];
            (Distinct(end.cpus) && Elements(end.cpus) == AllGiven(end.takes)) <==> SafeSwitches(slots, run)
  {
    hide Sound, SafeSwitches, GivenFirst, AllGiven, LoopStep;
    RunRecord(slots, init, ppn, fixedNames, run);
    var end := run[|run| - 1];
    assert AllGiven(end.takes) + Elements([]) == AllGiven(end.takes);
    if Elements(end.cpus) == AllGiven(end.takes) {
      assert forall g :: g in AllGiven(end.takes) ==> g in Elements(end.cpus);
    }
  }

  /** Every state in front of the last one. */
  lemma {:induction false} StateBefore(slots: seq<Slot>, init: seq<int>, ppn: nat, fixedNames: seq<Option<int>>, run: seq<View>, i: nat)
    requires LoopRun(slots, init, ppn, fixedNames, run) && InitialMarks(init) && ppn >= 1 && i < |run| - 1
    ensures Sound(slots, init, ppn, run[i]) && |run[i].tmp| < ppn
    decreases |run|
  {
    hide Sound, Exact, Lossy, NoneEarlier, LoopStep, InitialMarks;
    var r := run[..|run| - 1];
    RunFront(slots, init, ppn, fixedNames, run);
    if i < |r| - 1 {
      StateBefore(slots, init, ppn, fixedNames, r, i);
    } else {
      RunRecord(slots, init, ppn, fixedNames, r);
    }
  }

  /** A request of a safe shape never loses a slot, whatever the table is. */
  lemma {:induction false} SafeShapeIsSafe(slots: seq<Slot>, init: seq<int>, ppn: nat, fixedNames: seq<Option<int>>, run: seq<View>)
    requires LoopRun(slots, init, ppn, fixedNames, run) && InitialMarks(init) && ppn >= 1
    requires SafeShape(init, ppn, |fixedNames|)
    ensures SafeSwitches(slots, run)
  {
    forall i | 0 <= i < |run| - 1 && Switches(run[i], run[i + 1])
      ensures NoneEarlier(slots, run[i])
    {
      StateBefore(slots, init, ppn, fixedNames, run, i);
      SwitchIsSafe(slots, init, ppn, fixedNames, run[i], run[i + 1]);
    }
  }

  lemma {:induction false} SwitchIsSafe(slots: seq<Slot>, init: seq<int>, ppn: nat, fixedNames: seq<Option<int>>, v: View, w: View)
    requires Sound(slots, init, ppn, v) && |v.tmp| < ppn && LoopStep(slots, init, ppn, fixedNames, v, w)
    requires SafeShape(init, ppn, |fixedNames|) && Switches(v, w)
    ensures NoneEarlier(slots, v)
  {
    hide Filling, Ranked, Paced, NoneEarlier, SafeShape, UsableSlots, MarksOf, InitialMarks, NoException, Base, Commits, FirstCandidate, InPlace;
    var p: nat, at: nat :| StepBy(slots, init, ppn, fixedNames, v, p, at, w);
    SafeShapeKeeps(slots, init, ppn, |fixedNames|, v, p);
  }
}
