/**
 Tables for which the loop loses a slot (plan_operations.cpp:414-440): slots of two
 nodes that become free one after the other, numbered in the order of their times.
 */
module LossyTables {
  import opened PlanLists
  import opened PlanJobs
  import opened SlotSelection
  import opened SlotRuns
  import opened SlotLoss

  /** A job for n nodes, whichever they are. */
  function Unfixed(n: nat): (names: seq<Option<int>>)
    ensures |names| == n && forall k :: 0 <= k < n ==> names[k] == None
    ensures n > 0 ==> None in names
  {
    var names := seq(n, _ => None);
    assert n > 0 ==> names[0] == None;
    names
  }

  /**
   A slot is given and not recorded; whatever else is not recorded becomes free no
   earlier. All nodes of the job are node 1, whose slots are all free when it starts.
   */
  ghost predicate LosesSlot(slots: seq<Slot>, v: View, lost: nat) {
    && lost < |slots| && slots[lost].node == 1 && lost in AllGiven(v.takes) && lost !in v.cpus
    && (forall x :: 0 <= x < |slots| && x !in v.cpus ==> slots[lost].time <= slots[x].time)
    && (forall x :: 0 <= x < |slots| && slots[x].node == 1 ==> slots[x].time <= v.start) && slots[lost].time < v.start
    && (forall k :: 0 <= k < |v.nodes| ==> v.nodes[k] == Some(1))
  }

  /** A run that has found slots on all nodes of a job that is not fixed, and has lost one of them. */
  ghost predicate LosingRun(slots: seq<Slot>, init: seq<int>, ppn: nat, numNodes: nat, lost: nat, run: seq<View>) {
    && LoopRun(slots, init, ppn, Unfixed(numNodes), run) && |run[|run| - 1].nodes| == numNodes && run[|run| - 1].tmp == []
    && LosesSlot(slots, run[|run| - 1], lost)
  }

  // ----- turns of the loop

  ghost function MarkTaken(marks: seq<int>, tmp: seq<int>): (r: seq<int>)
    ensures |r| == |marks| && forall x :: 0 <= x < |marks| ==> r[x] == if x in tmp then TAKEN else marks[x]
  {
    seq(|marks|, x requires 0 <= x < |marks| => if x in tmp then TAKEN else marks[x])
  }

  /** The state after picking slot p, for a job that is not fixed to nodes. */
  ghost function Next(slots: seq<Slot>, ppn: nat, v: View, p: nat, at: nat): View
    requires |v.marks| == |slots| && v.cur.Valid(|slots|) && p < |slots| && Base(|v.nodes|, ppn) <= |v.cpus|
    requires at <= |Kept(slots, ppn, v, p)| && Indexes(slots, v.cpus)
  {
    var u := AfterPick(slots, ppn, v, p, at);
    if |u.tmp| < ppn then u
    else
      KeptIndexes(slots, ppn, v, p, at);
      AfterCommit(slots, u, MarkTaken(u.marks, u.tmp))
  }

  lemma {:induction false} KeptIndexes(slots: seq<Slot>, ppn: nat, v: View, p: nat, at: nat)
    requires |v.marks| == |slots| && v.cur.Valid(|slots|) && p < |slots| && Base(|v.nodes|, ppn) <= |v.cpus|
    requires at <= |Kept(slots, ppn, v, p)| && Indexes(slots, v.cpus)
    ensures Indexes(slots, AfterPick(slots, ppn, v, p, at).cpus) && AfterPick(slots, ppn, v, p, at).cpus != []
  {
    var kept := Kept(slots, ppn, v, p);
    var r := Insert(kept, at, p);
    assert forall a :: 0 <= a < |r| ==> r[a] == if a < at then kept[a] else if a == at then p else kept[a - 1];
  }

  /** One more turn of a run. */
  lemma {:induction false} Turn(slots: seq<Slot>, init: seq<int>, ppn: nat, fixedNames: seq<Option<int>>, run: seq<View>, p: nat, at: nat) returns (longer: seq<View>)
    requires LoopRun(slots, init, ppn, fixedNames, run) && PickStep(slots, init, ppn, run[|run| - 1], p, at) && Indexes(slots, run[|run| - 1].cpus)
    requires |NextPicks(slots, run[|run| - 1], p)| <= ppn && None in fixedNames && |run[|run| - 1].nodes| < |fixedNames|
    ensures LoopRun(slots, init, ppn, fixedNames, longer) && longer == run + [Next(slots, ppn, run[|run| - 1], p, at)]
  {
    hide LoopStep, FirstCandidate, InPlace, Base;
    var v := run[|run| - 1];
    var u := AfterPick(slots, ppn, v, p, at);
    var w := Next(slots, ppn, v, p, at);
    KeptIndexes(slots, ppn, v, p, at);
    assert Commits(slots, u.marks, u.tmp, slots[p].node, false, MarkTaken(u.marks, u.tmp));
    assert StepBy(slots, init, ppn, fixedNames, v, p, at, w);
    RunExtends(slots, init, ppn, fixedNames, run, p, at, w);
    longer := run + [w];
  }

  /** One slot after the other becomes free, at the instants 0, 1, 2 and so on. */
  ghost predicate OneByOne(slots: seq<Slot>) {
    forall x :: 0 <= x < |slots| ==> slots[x].time == x
  }

  /** The slots from i to j belong to node 1, which is being filled, and are the next ones to be picked. */
  ghost predicate InOrder(slots: seq<Slot>, ppn: nat, v: View, i: nat, j: nat) {
    && OneByOne(slots) && |v.marks| == |slots| && v.cur.Valid(|slots|) && v.cur.attempt >= 1 && i <= j <= |slots|
    && (forall x :: i <= x < j ==> slots[x].node == 1)
    && (forall x :: i <= x < |slots| ==> v.marks[x] == 0)
    && (forall x :: 0 <= x < i ==> v.marks[x] != 0 && v.marks[x] != NOT_NOW)
    && (forall x :: 0 <= x < i && slots[x].node == 1 ==> v.marks[x] == TAKEN || v.marks[x] == v.cur.attempt)
    && (v.cur.considered == None || v.cur.considered == Some(1)) && (v.cur.considered == None <==> v.tmp == [])
    && (forall a :: 0 <= a < |v.cpus| ==> 0 <= v.cpus[a] < i)
    && (forall a :: 0 <= a < |v.tmp| ==> 0 <= v.tmp[a] < i)
    && |v.cpus| == Base(|v.nodes|, ppn) + |v.tmp| && |v.tmp| < ppn
    && (forall k :: 0 <= k < |v.nodes| ==> v.nodes[k] == Some(1))
  }

  /** The slots given or picked now. */
  ghost function HeldSlots(v: View): set<int> {
    AllGiven(v.takes) + Elements(v.tmp)
  }

  function Range(i: nat, j: nat): (r: seq<int>)
    requires i <= j
    ensures |r| == j - i && forall k :: 0 <= k < |r| ==> r[k] == i + k
  {
    seq(j - i, k => i + k)
  }

  /** Slot i is picked and recorded behind all others. */
  lemma {:induction false} NextInOrder(slots: seq<Slot>, init: seq<int>, ppn: nat, v: View, i: nat, j: nat)
    requires |init| == |slots| && InOrder(slots, ppn, v, i, j) && i < j
    ensures Indexes(slots, v.cpus) && PickStep(slots, init, ppn, v, i, |v.cpus|) && |NextPicks(slots, v, i)| <= ppn
    ensures var w := Next(slots, ppn, v, i, |v.cpus|);
            && InOrder(slots, ppn, w, i + 1, j) && w.cpus == v.cpus + [i] && w.cur.attempt == v.cur.attempt
            && (w.tmp == [] || w.tmp == v.tmp + [i]) && HeldSlots(w) == HeldSlots(v) + {i}
            && (forall x :: 0 <= x < i && x !in v.tmp ==> w.marks[x] == v.marks[x])
  {
    hide AllGiven, Base;
    NextBase(|v.nodes|, ppn);
    assert Kept(slots, ppn, v, i) == v.cpus;
    var u := AfterPick(slots, ppn, v, i, |v.cpus|);
    assert u.cpus == v.cpus + [i];
    NextHolds(slots, ppn, v, i);
  }

  /** The slot picked is held, too. */
  lemma {:induction false} NextHolds(slots: seq<Slot>, ppn: nat, v: View, i: nat)
    requires |v.marks| == |slots| && v.cur.Valid(|slots|) && i < |slots| && Base(|v.nodes|, ppn) <= |v.cpus|
    requires Kept(slots, ppn, v, i) == v.cpus && Indexes(slots, v.cpus) && NextAttempt(slots, v.cur, i) == v.cur.attempt
    ensures HeldSlots(Next(slots, ppn, v, i, |v.cpus|)) == HeldSlots(v) + {i}
  {
    hide AllGiven, Base;
    var u := AfterPick(slots, ppn, v, i, |v.cpus|);
    assert Elements(u.tmp) == Elements(v.tmp) + {i};
    if |u.tmp| >= ppn {
      AllGivenNext(v.takes, Elements(u.tmp));
      assert Elements([]) == {};
    }
  }

  lemma {:induction false} AllGivenNext(takes: seq<set<int>>, take: set<int>)
    ensures AllGiven(takes + [take]) == AllGiven(takes) + take
  {
    assert (takes + [take])[..|takes|] == takes;
  }

  /** The slots from i to j have been picked in order, and recorded behind the others; older marks are as they were. */
  ghost predicate PickedInOrder(v: View, w: View, i: nat, j: nat) {
    && i <= j <= |v.marks| == |w.marks| && w.cpus == v.cpus + Range(i, j) && w.cur.attempt == v.cur.attempt
    && HeldSlots(v) <= HeldSlots(w) && (forall x :: i <= x < j ==> x in HeldSlots(w))
    && (forall x :: x in w.tmp ==> x in v.tmp || i <= x < j)
    && (forall x :: 0 <= x < i && x !in v.tmp ==> w.marks[x] == v.marks[x])
  }

  lemma {:induction false} PickedNone(v: View, i: nat)
    requires i <= |v.marks|
    ensures PickedInOrder(v, v, i, i)
  {
    hide HeldSlots;
  }

  lemma {:induction false} PickedOneMore(v: View, u: View, w: View, i: nat, j: nat)
    requires PickedInOrder(v, u, i, i + 1) && PickedInOrder(u, w, i + 1, j)
    ensures PickedInOrder(v, w, i, j)
  {
    hide HeldSlots;
    assert Range(i, i + 1) + Range(i + 1, j) == Range(i, j);
  }

  lemma {:induction false} PicksNext(slots: seq<Slot>, init: seq<int>, ppn: nat, v: View, i: nat, j: nat)
    requires |init| == |slots| && InOrder(slots, ppn, v, i, j) && i < j
    ensures Indexes(slots, v.cpus) && PickStep(slots, init, ppn, v, i, |v.cpus|) && |NextPicks(slots, v, i)| <= ppn
    ensures var w := Next(slots, ppn, v, i, |v.cpus|); InOrder(slots, ppn, w, i + 1, j) && PickedInOrder(v, w, i, i + 1)
  {
    hide HeldSlots, PickStep;
    NextInOrder(slots, init, ppn, v, i, j);
    assert Range(i, i + 1) == [i];
  }

  /** Picks all slots from i to j, one after the other. */
  lemma {:induction false} PickInOrder(slots: seq<Slot>, init: seq<int>, ppn: nat, fixedNames: seq<Option<int>>, run: seq<View>, i: nat, j: nat) returns (longer: seq<View>)
    requires LoopRun(slots, init, ppn, fixedNames, run) && InOrder(slots, ppn, run[|run| - 1], i, j)
    requires None in fixedNames && |run[|run| - 1].cpus| + (j - i) <= Base(|fixedNames|, ppn)
    ensures LoopRun(slots, init, ppn, fixedNames, longer)
    ensures InOrder(slots, ppn, longer[|longer| - 1], j, j) && PickedInOrder(run[|run| - 1], longer[|longer| - 1], i, j)
    decreases |slots| - i
  {
    hide InOrder, PickedInOrder, Base, LoopStep;
    var v := run[|run| - 1];
    InOrderNumbers(slots, ppn, v, i, j);
    if i == j {
      longer := run;
      PickedNone(v, i);
    } else {
      PicksNext(slots, init, ppn, v, i, j);
      PlaceIsLeft(slots, ppn, v, i, j, |fixedNames|);
      var next := Turn(slots, init, ppn, fixedNames, run, i, |v.cpus|);
      PickedLength(v, next[|next| - 1], i, i + 1);
      longer := PickInOrder(slots, init, ppn, fixedNames, next, i + 1, j);
      PickedOneMore(v, next[|next| - 1], longer[|longer| - 1], i, j);
    }
  }

  lemma {:induction false} PickedLength(v: View, w: View, i: nat, j: nat)
    requires PickedInOrder(v, w, i, j)
    ensures |w.cpus| == |v.cpus| + (j - i)
  {
  }

  /** As long as slots are missing, a node is. */
  lemma {:induction false} PlaceIsLeft(slots: seq<Slot>, ppn: nat, v: View, i: nat, j: nat, numNodes: nat)
    requires InOrder(slots, ppn, v, i, j) && |v.cpus| < Base(numNodes, ppn)
    ensures |v.nodes| < numNodes
  {
    if numNodes <= |v.nodes| {
      BaseMonotone(numNodes, |v.nodes|, ppn);
    }
  }

  lemma {:induction false} InOrderNumbers(slots: seq<Slot>, ppn: nat, v: View, i: nat, j: nat)
    requires InOrder(slots, ppn, v, i, j)
    ensures i <= j <= |slots| == |v.marks|
  {
  }

  // ----- three CPUs per node or more

  /** The slots that a job for so many nodes and CPUs per node is offered in time: two more than it needs. */
  function Offered(ppn: nat, numNodes: nat): nat {
    2 + Base(numNodes, ppn)
  }

  /** Slot 0, slot ppn + 1 and the last ppn - 2 slots belong to node 0, all others to node 1. */
  function LosingTable(ppn: nat, numNodes: nat): (slots: seq<Slot>)
    requires ppn >= 3
    ensures |slots| == Offered(ppn, numNodes) + ppn - 2 && OneByOne(slots)
    ensures forall x :: 0 <= x < |slots| ==>
              slots[x] == Slot(x, if x == 0 || x == ppn + 1 || x >= Offered(ppn, numNodes) then 0 else 1)
  {
    seq(Offered(ppn, numNodes) + ppn - 2, x => Slot(x, if x == 0 || x == ppn + 1 || x >= Offered(ppn, numNodes) then 0 else 1))
  }

  function AllFree(n: nat): (init: seq<int>)
    ensures |init| == n && InitialMarks(init) && NoException(init) && forall i :: 0 <= i < n ==> init[i] == 0
  {
    seq(n, _ => 0)
  }

  /** So many picks that only whole nodes are left. */
  lemma {:induction false} WholeNodes(n: nat, m: nat, ppn: nat, t: nat)
    requires Base(n, ppn) + t == Base(m, ppn) && t < ppn
    ensures n == m && t == 0
  {
    if n < m {
      BaseMonotone(n + 1, m, ppn);
      NextBase(n, ppn);
    } else if m < n {
      BaseMonotone(m + 1, n, ppn);
      NextBase(m, ppn);
    }
  }

  /** Node 0 is tried first; node 1, with slot 1 to slot ppn, is complete first. */
  ghost predicate FirstComplete(slots: seq<Slot>, ppn: nat, v: View) {
    && InOrder(slots, ppn, v, ppn + 1, ppn + 1) && v.cpus == Range(1, ppn + 1) && v.tmp == [] && |v.nodes| == 1
    && v.cur.attempt == 2 && |slots| > ppn && v.marks[0] == 1 && ppn in AllGiven(v.takes)
  }

  /** Slot 0 is picked, for node 0. */
  ghost predicate Zero(slots: seq<Slot>, init: seq<int>, v: View) {
    && |init| == |slots| > 1 && v.cur == Cursor(Some(0), 1, 0, 0) && v.marks == init[0 := 1]
    && v.cpus == [0] && v.tmp == [0] && v.nodes == [] && v.latest == [] && v.takes == []
  }

  lemma {:induction false} ZeroReached(ppn: nat, numNodes: nat) returns (run: seq<View>)
    requires ppn >= 3 && numNodes >= 2
    ensures var slots := LosingTable(ppn, numNodes);
            && LoopRun(slots, AllFree(|slots|), ppn, Unfixed(numNodes), run) && Zero(slots, AllFree(|slots|), run[|run| - 1])
            && |slots| > ppn + 2 && Base(0, ppn) == 0 && Base(numNodes, ppn) >= 2 * ppn
  {
    var slots := LosingTable(ppn, numNodes);
    var init := AllFree(|slots|);
    BaseMonotone(2, numNodes, ppn);
    NextBase(0, ppn);
    NextBase(1, ppn);
    NoneGiven(ppn);
    assert Base(2, ppn) == 2 * ppn;
    hide Base, LoopStep;
    run := Turn(slots, init, ppn, Unfixed(numNodes), [Begin(init)], 0, 0);
    assert run[|run| - 1].cpus == [0];
  }

  lemma {:induction false} FirstPicks(ppn: nat, numNodes: nat) returns (run: seq<View>)
    requires ppn >= 3 && numNodes >= 2
    ensures var slots := LosingTable(ppn, numNodes);
            && LoopRun(slots, AllFree(|slots|), ppn, Unfixed(numNodes), run)
            && InOrder(slots, ppn, run[|run| - 1], 2, ppn + 1)
            && var v := run[|run| - 1]; v.cpus == [1] && v.tmp == [1] && v.cur.attempt == 2 && v.marks[0] == 1
  {
    var slots := LosingTable(ppn, numNodes);
    var init := AllFree(|slots|);
    run := ZeroReached(ppn, numNodes);
    var v := run[|run| - 1];
    hide Base, LoopStep, LoopRun;
    assert Kept(slots, ppn, v, 1) == [];
    run := Turn(slots, init, ppn, Unfixed(numNodes), run, 1, 0);
    var w := run[|run| - 1];
    assert w.cpus == [1] && w.marks == v.marks[1 := 2];
  }

  lemma {:induction false} NoneGiven(ppn: nat)
    ensures Base(0, ppn) == 0
  {
  }

  lemma {:induction false} CompleteFirst(ppn: nat, numNodes: nat) returns (run: seq<View>)
    requires ppn >= 3 && numNodes >= 2
    ensures var slots := LosingTable(ppn, numNodes);
            LoopRun(slots, AllFree(|slots|), ppn, Unfixed(numNodes), run) && FirstComplete(slots, ppn, run[|run| - 1])
  {
    var slots := LosingTable(ppn, numNodes);
    var init := AllFree(|slots|);
    run := FirstPicks(ppn, numNodes);
    var v := run[|run| - 1];
    BaseMonotone(1, numNodes, ppn);
    assert Base(1, ppn) == ppn;
    run := PickInOrder(slots, init, ppn, Unfixed(numNodes), run, 2, ppn + 1);
    hide Base, AllGiven, LoopStep, LosingTable;
    var w := run[|run| - 1];
    assert [1] + Range(2, ppn + 1) == Range(1, ppn + 1);
    NoneGiven(ppn);
    NextBase(0, ppn);
    WholeNodes(|w.nodes|, 1, ppn, |w.tmp|);
    assert Elements([]) == {};
    assert w.tmp == [] && ppn in HeldSlots(w);
  }

  /** Node 1 is turned to again, and slot ppn is cut off. */
  ghost predicate CutOff(slots: seq<Slot>, ppn: nat, n: nat, v: View) {
    && ppn + 3 <= n <= |slots| && InOrder(slots, ppn, v, ppn + 3, n) && v.cpus == Range(0, ppn) + [ppn + 2]
    && |v.nodes| == 1 && |v.tmp| == 1 && ppn in AllGiven(v.takes)
  }

  /** What a completed first node leaves behind: all its slots are marked as taken. */
  lemma {:induction false} FirstCompleteMarks(slots: seq<Slot>, init: seq<int>, ppn: nat, fixedNames: seq<Option<int>>, run: seq<View>)
    requires LoopRun(slots, init, ppn, fixedNames, run) && InitialMarks(init) && ppn >= 1 && FirstComplete(slots, ppn, run[|run| - 1])
    ensures var v := run[|run| - 1];
            && v.cur.considered == None
            && forall x :: 0 <= x < ppn + 1 && slots[x].node == 1 ==> v.marks[x] == TAKEN
  {
    RunRecord(slots, init, ppn, fixedNames, run);
    PickedNow(slots, init, ppn, run[|run| - 1]);
  }

  /** Node 0 has its two slots again, when node 1 comes up. */
  ghost predicate BeforeCut(slots: seq<Slot>, ppn: nat, v: View) {
    && OneByOne(slots) && |v.marks| == |slots| > ppn + 2 && v.cur.Valid(|slots|) && v.cur.attempt == 2
    && v.cur.considered == Some(0) && v.cpus == Range(0, ppn + 2) && v.tmp == [ppn + 1, 0] && v.nodes == [Some(1)] && ppn in AllGiven(v.takes)
    && (forall x :: 0 <= x < |slots| ==>
          v.marks[x] == if x == 0 || x == ppn + 1 then 2 else if x < ppn + 1 then TAKEN else 0)
  }

  /** The other slot of node 0 is picked. */
  ghost predicate BackAgain(slots: seq<Slot>, ppn: nat, v: View) {
    && OneByOne(slots) && |v.marks| == |slots| > ppn + 2 && v.cur.Valid(|slots|) && v.cur.considered == Some(0) && v.cur.attempt == 2
    && v.cpus == Range(1, ppn + 2) && v.tmp == [ppn + 1] && v.nodes == [Some(1)] && ppn in AllGiven(v.takes)
    && (forall x :: 0 <= x < |slots| ==>
          v.marks[x] == if x == 0 then 1 else if x == ppn + 1 then 2 else if x < ppn + 1 then TAKEN else 0)
  }

  lemma {:induction false} BackAgainReached(ppn: nat, numNodes: nat) returns (run: seq<View>)
    requires ppn >= 3 && numNodes >= 2
    ensures var slots := LosingTable(ppn, numNodes);
            LoopRun(slots, AllFree(|slots|), ppn, Unfixed(numNodes), run) && BackAgain(slots, ppn, run[|run| - 1]) && Base(1, ppn) == ppn
  {
    var slots := LosingTable(ppn, numNodes);
    var init := AllFree(|slots|);
    run := CompleteFirst(ppn, numNodes);
    BaseMonotone(2, numNodes, ppn);
    hide AllGiven, LoopStep;
    NoneGiven(ppn);
    NextBase(0, ppn);
    NextBase(1, ppn);
    hide Base;
    FirstCompleteMarks(slots, init, ppn, Unfixed(numNodes), run);
    run := Turn(slots, init, ppn, Unfixed(numNodes), run, ppn + 1, ppn);
    assert run[|run| - 1].cpus == Range(1, ppn + 2);
  }

  lemma {:induction false} BeforeCutReached(ppn: nat, numNodes: nat) returns (run: seq<View>)
    requires ppn >= 3 && numNodes >= 2
    ensures var slots := LosingTable(ppn, numNodes);
            LoopRun(slots, AllFree(|slots|), ppn, Unfixed(numNodes), run) && BeforeCut(slots, ppn, run[|run| - 1])
  {
    var slots := LosingTable(ppn, numNodes);
    var init := AllFree(|slots|);
    run := BackAgainReached(ppn, numNodes);
    hide AllGiven, LoopStep, Base;
    run := Turn(slots, init, ppn, Unfixed(numNodes), run, 0, 0);
    var x := run[|run| - 1];
    assert x.cpus == Range(0, ppn + 2) && x.tmp == [ppn + 1, 0];
  }

  lemma {:induction false} CutOffReached(ppn: nat, numNodes: nat) returns (run: seq<View>)
    requires ppn >= 3 && numNodes >= 2
    ensures var slots := LosingTable(ppn, numNodes);
            LoopRun(slots, AllFree(|slots|), ppn, Unfixed(numNodes), run) && CutOff(slots, ppn, Offered(ppn, numNodes), run[|run| - 1])
  {
    var slots := LosingTable(ppn, numNodes);
    var init := AllFree(|slots|);
    run := BeforeCutReached(ppn, numNodes);
    BaseMonotone(2, numNodes, ppn);
    hide AllGiven, LoopStep;
    NoneGiven(ppn);
    NextBase(0, ppn);
    NextBase(1, ppn);
    hide Base;
    assert Kept(slots, ppn, run[|run| - 1], ppn + 2) == Range(0, ppn);
    run := Turn(slots, init, ppn, Unfixed(numNodes), run, ppn + 2, ppn);
  }

  /** For three CPUs per node or more and two nodes or more, the loop loses slot ppn of this table. */
  lemma {:induction false} LosesFromThree(ppn: nat, numNodes: nat) returns (run: seq<View>)
    requires ppn >= 3 && numNodes >= 2
    ensures var slots := LosingTable(ppn, numNodes); LosingRun(slots, AllFree(|slots|), ppn, numNodes, ppn, run)
  {
    var slots := LosingTable(ppn, numNodes);
    var init := AllFree(|slots|);
    run := CutOffReached(ppn, numNodes);
    var v := run[|run| - 1];
    hide AllGiven, LoopStep, InOrder, LosingTable, Base;
    run := PickInOrder(slots, init, ppn, Unfixed(numNodes), run, ppn + 3, Offered(ppn, numNodes));
    StartIsLatest(slots, init, ppn, Unfixed(numNodes), run);
    EndReached(slots, ppn, numNodes, v, run[|run| - 1]);
  }

  /** Between two nodes the start is the time of the last recorded slot. */
  lemma {:induction false} StartIsLatest(slots: seq<Slot>, init: seq<int>, ppn: nat, fixedNames: seq<Option<int>>, run: seq<View>)
    requires LoopRun(slots, init, ppn, fixedNames, run) && InitialMarks(init) && ppn >= 1 && fixedNames != [] && None in fixedNames
    ensures var v := run[|run| - 1];
            v.nodes != [] && v.tmp == [] ==> v.cpus != [] && 0 <= v.cpus[|v.cpus| - 1] < |slots| && v.start == slots[v.cpus[|v.cpus| - 1]].time
  {
    RunSelecting(slots, init, ppn, fixedNames, run);
    hide Core, LoopRun, LeastFit;
  }

  lemma {:induction false} EndReached(slots: seq<Slot>, ppn: nat, numNodes: nat, v: View, w: View)
    requires var n := Offered(ppn, numNodes); CutOff(slots, ppn, n, v) && InOrder(slots, ppn, w, n, n) && PickedInOrder(v, w, ppn + 3, n)
    requires ppn >= 3 && slots[ppn].node == 1 && numNodes >= 1
    requires forall x :: 0 <= x < |slots| && slots[x].node == 1 ==> x < Offered(ppn, numNodes)
    requires w.nodes != [] && w.tmp == [] ==> w.cpus != [] && 0 <= w.cpus[|w.cpus| - 1] < |slots| && w.start == slots[w.cpus[|w.cpus| - 1]].time
    ensures |w.nodes| == numNodes && w.tmp == [] && LosesSlot(slots, w, ppn)
  {
    hide AllGiven;
    var n := Offered(ppn, numNodes);
    NoneGiven(ppn);
    NextBase(0, ppn);
    hide Base;
    WholeNodes(|w.nodes|, numNodes, ppn, |w.tmp|);
    assert Elements([]) == {};
    assert ppn in HeldSlots(v) && ppn in HeldSlots(w);
    RecordedAround(w.cpus, ppn, n);
  }

  lemma {:induction false} RecordedAround(cpus: seq<int>, ppn: nat, n: nat)
    requires ppn + 3 <= n && cpus == Range(0, ppn) + [ppn + 2] + Range(ppn + 3, n)
    ensures ppn !in cpus && (forall x :: 0 <= x < ppn ==> x in cpus) && cpus[|cpus| - 1] == n - 1
  {
    assert forall k :: 0 <= k < |cpus| ==> cpus[k] == if k < ppn then k else k + 2;
    forall x | 0 <= x < ppn
      ensures x in cpus
    {
      assert cpus[x] == x;
    }
  }

  // ----- two CPUs per node, with an exception

  /** Slot 1 and the last slot belong to node 0, all others to node 1. */
  function ExceptionTable(numNodes: nat): (slots: seq<Slot>)
    ensures |slots| == 2 + Base(numNodes, 2) && OneByOne(slots)
    ensures forall x :: 0 <= x < |slots| ==> slots[x] == Slot(x, if x == 1 || x == |slots| - 1 then 0 else 1)
  {
    seq(2 + Base(numNodes, 2), x => Slot(x, if x == 1 || x == 1 + Base(numNodes, 2) then 0 else 1))
  }

  /** Slot 1 fits only when a later slot is already picked. */
  function OneException(n: nat): (init: seq<int>)
    ensures |init| == n && InitialMarks(init) && forall x :: 0 <= x < n ==> init[x] == if x == 1 then NOT_NOW else 0
  {
    seq(n, x => if x == 1 then NOT_NOW else 0)
  }

  /** Slot 0 and slot 2 complete node 1, and slot 1 is picked after that. */
  ghost predicate Excepted(slots: seq<Slot>, v: View) {
    && OneByOne(slots) && |v.marks| == |slots| >= 5 && v.cur.Valid(|slots|) && v.cur.attempt == 1
    && v.cur.considered == Some(0) && v.cpus == [0, 1, 2] && v.tmp == [1] && v.nodes == [Some(1)] && 2 in AllGiven(v.takes)
    && (forall x :: 0 <= x < |slots| ==> v.marks[x] == if x == 1 then 1 else if x <= 2 then TAKEN else 0)
  }

  lemma {:induction false} ExceptedReached(numNodes: nat) returns (run: seq<View>)
    requires numNodes >= 2
    ensures var slots := ExceptionTable(numNodes);
            LoopRun(slots, OneException(|slots|), 2, Unfixed(numNodes), run) && Excepted(slots, run[|run| - 1])
  {
    var slots := ExceptionTable(numNodes);
    var init := OneException(|slots|);
    BaseMonotone(2, numNodes, 2);
    NoneGiven(2);
    hide LoopStep;
    run := PairReached(numNodes);
    var w := run[|run| - 1];
    run := Turn(slots, init, 2, Unfixed(numNodes), run, 1, 1);
    assert run[|run| - 1].cpus == [0, 1, 2];
  }

  /** Slot 0 and slot 2 complete node 1; slot 1 in between does not fit yet. */
  ghost predicate Pair(slots: seq<Slot>, v: View) {
    && OneByOne(slots) && |v.marks| == |slots| >= 5 && v.cur == Cursor(None, 1, -1, 2)
    && v.cpus == [0, 2] && v.tmp == [] && v.nodes == [Some(1)] && 2 in AllGiven(v.takes)
    && (forall x :: 0 <= x < |slots| ==> v.marks[x] == if x == 1 then NOT_NOW else if x <= 2 then TAKEN else 0)
  }

  /** Slot 0 is picked, for node 1. */
  ghost predicate One(slots: seq<Slot>, init: seq<int>, v: View) {
    && |init| == |slots| >= 5 && v.cur == Cursor(Some(1), 1, 0, 0) && v.marks == init[0 := 1]
    && v.cpus == [0] && v.tmp == [0] && v.nodes == [] && v.latest == [] && v.takes == []
  }

  lemma {:induction false} OneReached(numNodes: nat) returns (run: seq<View>)
    requires numNodes >= 2
    ensures var slots := ExceptionTable(numNodes);
            LoopRun(slots, OneException(|slots|), 2, Unfixed(numNodes), run) && One(slots, OneException(|slots|), run[|run| - 1])
  {
    var slots := ExceptionTable(numNodes);
    var init := OneException(|slots|);
    BaseMonotone(2, numNodes, 2);
    hide LoopStep;
    run := Turn(slots, init, 2, Unfixed(numNodes), [Begin(init)], 0, 0);
    assert run[|run| - 1].cpus == [0];
  }

  /** Behind slot 0, slot 2 is the first candidate. */
  lemma {:induction false} SecondOfPair(numNodes: nat, v: View)
    requires numNodes >= 2 && One(ExceptionTable(numNodes), OneException(2 + Base(numNodes, 2)), v)
    ensures PickStep(ExceptionTable(numNodes), OneException(2 + Base(numNodes, 2)), 2, v, 2, 1)
    ensures NextPicks(ExceptionTable(numNodes), v, 2) == [0, 2] && Indexes(ExceptionTable(numNodes), v.cpus)
  {
  }

  lemma {:induction false} PairReached(numNodes: nat) returns (run: seq<View>)
    requires numNodes >= 2
    ensures var slots := ExceptionTable(numNodes);
            LoopRun(slots, OneException(|slots|), 2, Unfixed(numNodes), run) && Pair(slots, run[|run| - 1])
  {
    var slots := ExceptionTable(numNodes);
    var init := OneException(|slots|);
    run := OneReached(numNodes);
    var v := run[|run| - 1];
    SecondOfPair(numNodes, v);
    NoneGiven(2);
    hide LoopStep, AllGiven, PickStep;
    run := Turn(slots, init, 2, Unfixed(numNodes), run, 2, 1);
    var w := run[|run| - 1];
    AllGivenNext([], Elements([0, 2]));
    assert 2 in Elements([0, 2]);
    assert w.cpus == [0, 2] && w.takes == [] + [Elements([0, 2])];
  }

  ghost predicate ExceptionCut(slots: seq<Slot>, v: View) {
    && 5 <= |slots| && InOrder(slots, 2, v, 4, |slots| - 1) && v.cpus == [0, 1, 3] && |v.nodes| == 1 && |v.tmp| == 1 && 2 in AllGiven(v.takes)
  }

  lemma {:induction false} ExceptionCutReached(numNodes: nat) returns (run: seq<View>)
    requires numNodes >= 2
    ensures var slots := ExceptionTable(numNodes);
            && LoopRun(slots, OneException(|slots|), 2, Unfixed(numNodes), run) && ExceptionCut(slots, run[|run| - 1])
            && Base(numNodes, 2) >= 4
  {
    var slots := ExceptionTable(numNodes);
    var init := OneException(|slots|);
    run := ExceptedReached(numNodes);
    BaseMonotone(2, numNodes, 2);
    hide AllGiven, LoopStep;
    var x := run[|run| - 1];
    assert Kept(slots, 2, x, 3) == [0, 1];
    run := Turn(slots, init, 2, Unfixed(numNodes), run, 3, 2);
  }

  /** For two CPUs per node and two nodes or more, the loop loses slot 2 of this table with an exception. */
  lemma {:induction false} LosesWithException(numNodes: nat) returns (run: seq<View>)
    requires numNodes >= 2
    ensures var slots := ExceptionTable(numNodes); LosingRun(slots, OneException(|slots|), 2, numNodes, 2, run)
  {
    var slots := ExceptionTable(numNodes);
    var init := OneException(|slots|);
    run := ExceptionCutReached(numNodes);
    var v := run[|run| - 1];
    hide AllGiven, LoopStep, InOrder, ExceptionTable, Base;
    run := PickInOrder(slots, init, 2, Unfixed(numNodes), run, 4, |slots| - 1);
    StartIsLatest(slots, init, 2, Unfixed(numNodes), run);
    ExceptionEnd(slots, numNodes, v, run[|run| - 1]);
  }

  lemma {:induction false} ExceptionEnd(slots: seq<Slot>, numNodes: nat, v: View, w: View)
    requires |slots| == 2 + Base(numNodes, 2) && ExceptionCut(slots, v) && InOrder(slots, 2, w, |slots| - 1, |slots| - 1)
    requires PickedInOrder(v, w, 4, |slots| - 1) && slots[2].node == 1 && numNodes >= 2
    requires forall x :: 0 <= x < |slots| && slots[x].node == 1 ==> x < |slots| - 1
    requires w.nodes != [] && w.tmp == [] ==> w.cpus != [] && 0 <= w.cpus[|w.cpus| - 1] < |slots| && w.start == slots[w.cpus[|w.cpus| - 1]].time
    ensures |w.nodes| == numNodes && w.tmp == [] && LosesSlot(slots, w, 2)
  {
    hide AllGiven;
    WholeNodes(|w.nodes|, numNodes, 2, |w.tmp|);
    assert Elements([]) == {};
    assert 2 in HeldSlots(v) && 2 in HeldSlots(w);
    assert w.cpus[0] == 0 && w.cpus[1] == 1 && w.cpus[2] == 3;
    assert w.cpus[|w.cpus| - 1] == |slots| - 2 by {
      BaseMonotone(2, numNodes, 2);
    }
  }
}
