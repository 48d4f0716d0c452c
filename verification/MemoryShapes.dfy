/**
 Which requests the loop starts as early as slots that depend on the memory
 exception allow (plan_operations.cpp:51-64, plan_operations.cpp:378-508), on the
 tables that nodes make.
 */
module MemoryShapes {
  import opened PlanLists
  import opened PlanJobs
  import opened SlotSelection
  import opened SlotRuns
  import opened LossyTables
  import opened SlotBooking
  import opened Gaps
  import opened GapEmission
  import opened SlotTable
  import opened JobPlanning
  import opened NodeTables
  import opened NodeLoss
  import opened OneCpu

  /** Slots of these nodes suffice at an instant, those that fit below a later one of their node included. */
  ghost predicate SeatedBy(slots: seq<Slot>, init: seq<int>, ppn: nat, fixedNames: seq<Option<int>>, nodes: seq<Option<int>>, t: int)
    requires |init| == |slots|
  {
    && |nodes| == |fixedNames| && None !in nodes
    && (None !in fixedNames ==> multiset(nodes) == multiset(fixedNames))
    && forall n: int :: Base(multiset(nodes)[Some(n)], ppn) <= |UsableBy(slots, init, n, t)|
  }

  /** The loop stops without slots for all places, or sets a start behind this instant. */
  ghost predicate Misses(slots: seq<Slot>, fixedNames: seq<Option<int>>, run: seq<View>, t: int) {
    && run != []
    && var end := run[|run| - 1];
       || (|end.nodes| < |fixedNames| && |end.marks| == |slots| && end.cur.Valid(|slots|) && NoCandidate(slots, end.marks, end.cur))
       || (|end.nodes| == |fixedNames| && t < end.start)
  }

  /** Whatever the nodes are, no instant that has slots for all places is missed. */
  ghost predicate NeverMisses(ppn: nat, numNodes: nat) {
    forall nodes, now, names, fit, run: seq<View>, seats, t ::
      |names| == numNodes && NodeRun(nodes, now, names, ppn, fit, run) &&
      SeatedBy(Table(nodes, now), FirstMarks(names, ppn, Table(nodes, now), fit), ppn, names, seats, t) ==>
        !Misses(Table(nodes, now), names, run, t)
  }

  lemma {:induction false} SeatedIsPlaced(slots: seq<Slot>, init: seq<int>, ppn: nat, fixedNames: seq<Option<int>>, nodes: seq<Option<int>>, t: int)
    requires |init| == |slots| && SeatedBy(slots, init, ppn, fixedNames, nodes, t) && (|fixedNames| == 1 || ppn == 1)
    ensures CanStart(slots, init, ppn, fixedNames, t)
  {
    forall n: int
      ensures RoomOn(slots, init, ppn, n, multiset(nodes)[Some(n)], t)
    {
      if |fixedNames| == 1 {
        assert nodes == [nodes[0]];
      }
    }
    assert PlacedBy(slots, init, ppn, fixedNames, nodes, t);
  }

  lemma {:induction false} RunMissesNothing(slots: seq<Slot>, init: seq<int>, ppn: nat, fixedNames: seq<Option<int>>, run: seq<View>, t: int)
    requires LoopRun(slots, init, ppn, fixedNames, run) && InitialMarks(init) && ppn >= 1 && fixedNames != []
    requires None !in fixedNames ==> Confined(slots, init, multiset(fixedNames))
    requires CanStart(slots, init, ppn, fixedNames, t)
    ensures !Misses(slots, fixedNames, run, t)
  {
    RunSelecting(slots, init, ppn, fixedNames, run);
    hide LoopRun, CanStart, NoCandidate, Core;
    var end := run[|run| - 1];
    if Misses(slots, fixedNames, run, t) && |end.nodes| < |fixedNames| {
      SelectingStuck(slots, init, ppn, fixedNames, end);
    }
  }

  lemma {:induction false} SimpleShapeNeverMisses(ppn: nat, numNodes: nat)
    requires ppn >= 1 && numNodes >= 1 && (numNodes == 1 || ppn == 1)
    ensures NeverMisses(ppn, numNodes)
  {
    hide LoopRun, Table, FirstMarks, SeatedBy, Misses;
    forall nodes, now, names, fit, run: seq<View>, seats, t |
      |names| == numNodes && NodeRun(nodes, now, names, ppn, fit, run) &&
      SeatedBy(Table(nodes, now), FirstMarks(names, ppn, Table(nodes, now), fit), ppn, names, seats, t)
      ensures !Misses(Table(nodes, now), names, run, t)
    {
      NodeRunMissesNothing(nodes, now, names, ppn, fit, run, seats, t);
    }
  }

  lemma {:induction false} NodeRunMissesNothing(nodes: seq<Node>, now: int, names: seq<Option<int>>, ppn: nat, fit: seq<Fitness>, run: seq<View>,
                                                seats: seq<Option<int>>, t: int)
    requires ppn >= 1 && names != [] && (|names| == 1 || ppn == 1) && NodeRun(nodes, now, names, ppn, fit, run)
    requires SeatedBy(Table(nodes, now), FirstMarks(names, ppn, Table(nodes, now), fit), ppn, names, seats, t)
    ensures !Misses(Table(nodes, now), names, run, t)
  {
    hide SeatedBy, Misses, FirstMarks, LoopRun, Table;
    var slots := Table(nodes, now);
    MarksAreConfined(names, ppn, slots, fit);
    SeatedIsPlaced(slots, FirstMarks(names, ppn, slots, fit), ppn, names, seats, t);
    RunMissesNothing(slots, FirstMarks(names, ppn, slots, fit), ppn, names, run, t);
  }

  // ----- a node of which only the latest slot fits by itself

  /** The cores of one node become free one after the other. */
  function Steps(n: nat): (slots: seq<Slot>)
    ensures |slots| == n && OneByOne(slots) && forall x :: 0 <= x < n ==> slots[x] == Slot(x, 0)
  {
    seq(n, x => Slot(x, 0))
  }

  function LastFits(n: nat): (fit: seq<Fitness>)
    ensures |fit| == n && InitialMarks(fit) && forall x :: 0 <= x < n ==> fit[x] == if x == n - 1 then 0 else NOT_NOW
  {
    seq(n, x => if x == n - 1 then 0 else -4)
  }

  lemma {:induction false} StepsOfNode(n: nat) returns (nodes: seq<Node>)
    ensures ValidNodes(nodes) && Table(nodes, 0) == Steps(n)
    ensures |nodes| == 1 && !nodes[0].Blank() && nodes[0].cores == n
  {
    var times := Range(0, n);
    assert Times([times]);
    TableOf([times]);
    nodes := NodesOf([times]);
    assert SlotsOf([times][..0]) == [];
    assert SlotsOf([times]) == Steps(n);
  }

  /** The last slot is picked, and i slots below it. */
  ghost predicate Below(n: nat, v: View, i: nat) {
    && i < n && |v.marks| == n && (forall x :: 0 <= x < n ==> v.marks[x] == if x == n - 1 || x < i then 1 else NOT_NOW)
    && v.cur == Cursor(Some(0), 1, n - 1, n - 1) && v.cpus == Range(0, i) + [n - 1] && v.tmp == [n - 1] + Range(0, i) && v.nodes == []
  }

  lemma {:induction false} BelowBegins(n: nat, ppn: nat, numNodes: nat) returns (run: seq<View>)
    requires ppn >= 2 && numNodes >= 1 && n >= 1
    ensures LoopRun(Steps(n), LastFits(n), ppn, Unfixed(numNodes), run) && Below(n, run[|run| - 1], 0)
  {
    var slots, init := Steps(n), LastFits(n);
    NoPlaces(ppn);
    hide LoopStep, Base;
    run := Turn(slots, init, ppn, Unfixed(numNodes), [Begin(init)], n - 1, 0);
    assert run[|run| - 1].cpus == [n - 1];
  }

  lemma {:induction false} BelowStep(n: nat, ppn: nat, v: View, i: nat)
    requires Below(n, v, i) && i + 1 < n
    ensures |v.marks| == |Steps(n)| && v.cur.Valid(n) && Indexes(Steps(n), v.cpus) && Base(|v.nodes|, ppn) <= |v.cpus|
    ensures PickStep(Steps(n), LastFits(n), ppn, v, i, i) && NextPicks(Steps(n), v, i) == [n - 1] + Range(0, i + 1)
    ensures var u := AfterPick(Steps(n), ppn, v, i, i);
            && u.marks == v.marks[i := 1] && u.cpus == Range(0, i + 1) + [n - 1] && u.cur == v.cur && u.nodes == [] && u.tmp == [n - 1] + Range(0, i + 1)
  {
    NoPlaces(ppn);
    hide Base;
    assert Insert(v.cpus, i, i) == Range(0, i + 1) + [n - 1];
  }

  lemma {:induction false} BelowReached(n: nat, ppn: nat, numNodes: nat, i: nat) returns (run: seq<View>)
    requires i + 2 <= ppn <= n && numNodes >= 1
    ensures LoopRun(Steps(n), LastFits(n), ppn, Unfixed(numNodes), run) && Below(n, run[|run| - 1], i)
  {
    if i == 0 {
      run := BelowBegins(n, ppn, numNodes);
    } else {
      run := BelowReached(n, ppn, numNodes, i - 1);
      BelowStep(n, ppn, run[|run| - 1], i - 1);
      hide LoopRun, PickStep, AfterPick;
      run := Turn(Steps(n), LastFits(n), ppn, Unfixed(numNodes), run, i - 1, i - 1);
    }
  }

  /** The node has given one place, and the other slots still depend on the exception. */
  ghost predicate OneGiven(n: nat, ppn: nat, v: View) {
    && 1 <= ppn < n && |v.marks| == n
    && (forall x :: 0 <= x < n ==> v.marks[x] == if x == n - 1 || x < ppn - 1 then TAKEN else NOT_NOW)
    && v.cur == Cursor(None, 1, -1, n - 1) && v.cpus == Range(0, ppn - 1) + [n - 1] && v.tmp == [] && |v.nodes| == 1
  }

  lemma {:induction false} OneGivenReached(n: nat, ppn: nat, numNodes: nat) returns (run: seq<View>)
    requires 2 <= ppn < n && numNodes >= 1
    ensures LoopRun(Steps(n), LastFits(n), ppn, Unfixed(numNodes), run) && OneGiven(n, ppn, run[|run| - 1])
  {
    run := BelowReached(n, ppn, numNodes, ppn - 2);
    var v := run[|run| - 1];
    BelowStep(n, ppn, v, ppn - 2);
    var u := AfterPick(Steps(n), ppn, v, ppn - 2, ppn - 2);
    hide LoopRun, PickStep, AfterPick, Below;
    run := Turn(Steps(n), LastFits(n), ppn, Unfixed(numNodes), run, ppn - 2, ppn - 2);
    assert u.tmp == [n - 1] + Range(0, ppn - 1);
    var marks := run[|run| - 1].marks;
    forall x | 0 <= x < n
      ensures marks[x] == if x == n - 1 || x < ppn - 1 then TAKEN else NOT_NOW
    {
      InStack(n, ppn, x);
    }
  }

  lemma {:induction false} InStack(n: nat, ppn: nat, x: nat)
    requires 1 <= ppn < n && x < n
    ensures x in [n - 1] + Range(0, ppn - 1) <==> x == n - 1 || x < ppn - 1
  {
    var s := [n - 1] + Range(0, ppn - 1);
    assert s[0] == n - 1 && (x < ppn - 1 ==> s[x + 1] == x);
  }

  /** One more slot is picked, and nothing fits below it. */
  lemma {:induction false} StuckReached(n: nat, ppn: nat, numNodes: nat) returns (run: seq<View>)
    requires 2 <= ppn < n && numNodes >= 2
    ensures LoopRun(Steps(n), LastFits(n), ppn, Unfixed(numNodes), run)
    ensures forall t :: Misses(Steps(n), Unfixed(numNodes), run, t)
  {
    run := OneGivenReached(n, ppn, numNodes);
    var v := run[|run| - 1];
    NoPlaces(ppn);
    NextBase(0, ppn);
    hide LoopRun, LoopStep, Base;
    assert Kept(Steps(n), ppn, v, ppn - 1) == v.cpus;
    run := Turn(Steps(n), LastFits(n), ppn, Unfixed(numNodes), run, ppn - 1, ppn - 1);
  }

  /** All slots of the node fit below the latest one. */
  lemma {:induction false} StepsSuffice(ppn: nat, numNodes: nat)
    requires ppn >= 1 && numNodes >= 1
    ensures var n := Base(numNodes, ppn);
            n >= 1 && SeatedBy(Steps(n), LastFits(n), ppn, Unfixed(numNodes), seq(numNodes, _ => Some(0)), n - 1)
  {
    var n := Base(numNodes, ppn);
    BaseMonotone(1, numNodes, ppn);
    NextBase(0, ppn);
    NoPlaces(ppn);
    hide Base;
    var seats := seq(numNodes, _ => Some(0));
    SeatsOnNode(numNodes);
    CardOfDistinct(Range(0, n));
    forall x | x in Elements(Range(0, n))
      ensures x in UsableBy(Steps(n), LastFits(n), 0, n - 1)
    {
      if x < n - 1 {
        assert LastFits(n)[n - 1] == 0;
        assert OutlastedBy(Steps(n), LastFits(n), x, n - 1);
      }
    }
    CardOfSubset(Elements(Range(0, n)), UsableBy(Steps(n), LastFits(n), 0, n - 1));
  }

  lemma {:induction false} SeatsOnNode(k: nat)
    ensures forall n: int :: multiset(seq(k, _ => Some(0)))[Some(n)] == if n == 0 then k else 0
    ensures None !in seq<Option<int>>(k, _ => Some(0))
  {
    if k > 0 {
      SeatsOnNode(k - 1);
      assert seq(k, _ => Some(0)) == seq(k - 1, _ => Some(0)) + [Some(0)];
    }
  }

  /**
   For every other shape there is a node whose slots would all fit below its latest
   one, in number enough for all places, and the loop fails on its table.
   */
  lemma {:induction false} OtherShapeMisses(ppn: nat, numNodes: nat) returns (nodes: seq<Node>, fit: seq<Fitness>, run: seq<View>, t: int)
    requires ppn >= 2 && numNodes >= 2
    ensures NodeRun(nodes, 0, Unfixed(numNodes), ppn, fit, run)
    ensures SeatedBy(Table(nodes, 0), FirstMarks(Unfixed(numNodes), ppn, Table(nodes, 0), fit), ppn, Unfixed(numNodes), seq(numNodes, _ => Some(0)), t)
    ensures Misses(Table(nodes, 0), Unfixed(numNodes), run, t)
  {
    var n := Base(numNodes, ppn);
    BaseMonotone(2, numNodes, ppn);
    assert Base(2, ppn) == 2 * ppn;
    nodes := StepsOfNode(n);
    fit := LastFits(n);
    t := n - 1;
    MarksAreFitness(nodes, 0, Unfixed(numNodes), ppn, fit);
    run := StuckReached(n, ppn, numNodes);
    StepsSuffice(ppn, numNodes);
  }

  /**
   No nodes make the loop miss an instant that has slots for all places, those that
   fit below a later one of their node included, if and only if the request is for
   one node or for one CPU per node.
   */
  lemma {:induction false} NeverMissesIff(ppn: nat, numNodes: nat)
    requires ppn >= 1 && numNodes >= 1
    ensures NeverMisses(ppn, numNodes) <==> numNodes == 1 || ppn == 1
  {
    if numNodes == 1 || ppn == 1 {
      SimpleShapeNeverMisses(ppn, numNodes);
    } else {
      hide NodeRun, SeatedBy, Misses;
      var nodes, fit, run, t := OtherShapeMisses(ppn, numNodes);
    }
  }
}
