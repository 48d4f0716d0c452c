/**
 Which requests may lose a slot (plan_operations.cpp:378-508), for the tables that
 nodes make: one node after the other, with as many slots as cores, and nodes with
 too few cores out of the question.
 */
module NodeLoss {
  import opened PlanLists
  import opened PlanJobs
  import opened SlotSelection
  import opened SlotRuns
  import opened SlotLoss
  import opened SlotOrder
  import opened LossyTables
  import opened SlotBooking
  import opened Gaps
  import opened GapEmission
  import opened SlotTable
  import opened JobPlanning
  import opened NodeTables

  /** A run of the loop for a job on the table of the nodes at an instant. */
  ghost predicate NodeRun(nodes: seq<Node>, now: int, names: seq<Option<int>>, ppn: nat, fit: seq<Fitness>, run: seq<View>) {
    && ValidNodes(nodes) && now >= 0 && |fit| == |Table(nodes, now)|
    && LoopRun(Table(nodes, now), FirstMarks(names, ppn, Table(nodes, now), fit), ppn, names, run)
  }

  /** No slot depends on the memory exception. */
  ghost predicate FitsAlways(fit: seq<Fitness>) {
    forall i :: 0 <= i < |fit| ==> fit[i] != NOT_NOW
  }

  /** Whatever the nodes are, the slots recorded in the end are exactly those given, each once. */
  ghost predicate NeverLoses(ppn: nat, numNodes: nat, exceptions: bool) {
    forall nodes, now, names, fit, run: seq<View>, sel ::
      |names| == numNodes && NodeRun(nodes, now, names, ppn, fit, run) && EndsWith(run, names, sel) && (exceptions || FitsAlways(fit)) ==>
        Distinct(sel.cpuIndexes) && Elements(sel.cpuIndexes) == AllGiven(run[|run| - 1].takes)
  }

  lemma {:induction false} MarksAreInitial(names: seq<Option<int>>, ppn: nat, slots: seq<Slot>, fit: seq<Fitness>)
    requires |fit| == |slots|
    ensures InitialMarks(FirstMarks(names, ppn, slots, fit))
    ensures FitsAlways(fit) ==> NoException(FirstMarks(names, ppn, slots, fit))
  {
    hide CoresOf;
  }

  lemma {:induction false} SafeShapeNeverLoses(ppn: nat, numNodes: nat, exceptions: bool)
    requires ppn >= 1 && (numNodes == 1 || ppn == 1 || (ppn == 2 && !exceptions))
    ensures NeverLoses(ppn, numNodes, exceptions)
  {
    forall nodes, now, names, fit, run: seq<View>, sel |
      |names| == numNodes && NodeRun(nodes, now, names, ppn, fit, run) && EndsWith(run, names, sel) && (exceptions || FitsAlways(fit))
      ensures Distinct(sel.cpuIndexes) && Elements(sel.cpuIndexes) == AllGiven(run[|run| - 1].takes)
    {
      var slots := Table(nodes, now);
      var init := FirstMarks(names, ppn, slots, fit);
      MarksAreInitial(names, ppn, slots, fit);
      SafeShapeIsSafe(slots, init, ppn, names, run);
      RunExactIff(slots, init, ppn, names, run);
    }
  }

  // ----- nodes that make a request lose a slot

  /** Nodes whose table makes the loop lose a slot of node 1, all of which the job takes. */
  ghost predicate LossyNodes(nodes: seq<Node>, fit: seq<Fitness>, ppn: nat, numNodes: nat, lost: nat, run: seq<View>) {
    && |nodes| == 2 && NodeRun(nodes, 0, Unfixed(numNodes), ppn, fit, run)
    && |run[|run| - 1].nodes| == numNodes && run[|run| - 1].tmp == [] && LosesSlot(Table(nodes, 0), run[|run| - 1], lost)
    && (forall i :: 0 <= i < |nodes| ==> !nodes[i].Blank() && ppn <= nodes[i].cores) && nodes[1].cores == Base(numNodes, ppn)
    && NoTies(Table(nodes, 0))
  }

  lemma {:induction false} LossRenumbered(slots: seq<Slot>, slots': seq<Slot>, pi: seq<int>, inv: seq<int>, v: View, lost: nat)
    requires Renumbers(slots, slots', pi, inv) && ViewWithin(v, |slots|) && LosesSlot(slots, v, lost)
    ensures pi[lost] >= 0 && LosesSlot(slots', RenumberedView(pi, inv, v), pi[lost])
  {
    hide AllGiven;
    AllGivenRenumbered(pi, v.takes);
    ElementsRenumbered(pi, inv, v.cpus);
    var v' := RenumberedView(pi, inv, v);
    forall y | 0 <= y < |slots'|
      ensures y !in v'.cpus ==> slots[lost].time <= slots'[y].time
      ensures slots'[y].node == 1 ==> slots'[y].time <= v.start
    {
      assert pi[inv[y]] == y && slots'[y] == slots[inv[y]];
    }
  }

  /** A losing run on a table in the order of times is one on the table of the nodes. */
  lemma {:induction false} LossOnNodes(nodes: seq<Node>, fit: seq<Fitness>, slots: seq<Slot>, init: seq<int>, ppn: nat, numNodes: nat,
                                       lost: nat, pi: seq<int>, inv: seq<int>, run: seq<View>) returns (run': seq<View>)
    requires |nodes| == 2 && ValidNodes(nodes) && |fit| == |Table(nodes, 0)| && numNodes >= 1
    requires forall i :: 0 <= i < |nodes| ==> !nodes[i].Blank() && ppn <= nodes[i].cores
    requires nodes[1].cores == Base(numNodes, ppn)
    requires LosingRun(slots, init, ppn, numNodes, lost, run) && OneByOne(slots)
    requires Renumbers(slots, Table(nodes, 0), pi, inv) && forall x :: 0 <= x < |slots| ==> fit[pi[x]] == init[x]
    ensures 0 <= pi[lost] && LossyNodes(nodes, fit, ppn, numNodes, pi[lost], run')
  {
    var table := Table(nodes, 0);
    MarksAreFitness(nodes, 0, Unfixed(numNodes), ppn, fit);
    hide FirstMarks, Table, LosesSlot;
    assert NoTies(slots);
    run' := RunRenumbered(slots, table, init, fit, ppn, Unfixed(numNodes), pi, inv, run);
    LossRenumbered(slots, table, pi, inv, run[|run| - 1], lost);
    forall x, y | 0 <= x < y < |table|
      ensures table[x].time != table[y].time
    {
      assert table[x] == slots[inv[x]] && table[y] == slots[inv[y]];
      assert pi[inv[x]] == x && pi[inv[y]] == y;
    }
  }

  /** The times of the two nodes in LosingTable. */
  function ThreeTimes(ppn: nat, numNodes: nat): (times: (seq<int>, seq<int>))
    requires ppn >= 3 && Base(numNodes, ppn) >= ppn
    ensures |times.0| == ppn && |times.1| == Base(numNodes, ppn)
    ensures forall c :: 0 <= c < ppn ==> times.0[c] == if c == 0 then 0 else if c == 1 then ppn + 1 else Offered(ppn, numNodes) + c - 2
    ensures forall c :: 0 <= c < Base(numNodes, ppn) ==> times.1[c] == if c < ppn then c + 1 else c + 2
  {
    (seq(ppn, c => if c == 0 then 0 else if c == 1 then ppn + 1 else Offered(ppn, numNodes) + c - 2),
     seq(Base(numNodes, ppn), c => if c < ppn then c + 1 else c + 2))
  }

  lemma {:induction false} ThreeRenumbers(ppn: nat, numNodes: nat) returns (nodes: seq<Node>, pi: seq<int>, inv: seq<int>)
    requires ppn >= 3 && numNodes >= 2
    ensures |nodes| == 2 && ValidNodes(nodes) && !nodes[0].Blank() && !nodes[1].Blank()
    ensures nodes[0].cores == ppn && nodes[1].cores == Base(numNodes, ppn) >= ppn
    ensures Renumbers(LosingTable(ppn, numNodes), Table(nodes, 0), pi, inv)
  {
    BaseMonotone(1, numNodes, ppn);
    assert Base(1, ppn) == ppn;
    hide Base;
    var (a, b) := ThreeTimes(ppn, numNodes);
    assert Times([a, b]);
    TableOf([a, b]);
    SlotsOfTwo(a, b);
    nodes := NodesOf([a, b]);
    inv := a + b;
    pi := ThreeNumbers(ppn, Offered(ppn, numNodes));
  }

  /** The slots of LosingTable as the node table numbers them; so many of them are offered. */
  function ThreeNumbers(ppn: nat, offered: nat): (pi: seq<int>)
    requires ppn >= 3
    ensures |pi| == offered + ppn - 2
    ensures forall x :: 0 <= x < |pi| ==> pi[x] == if x == 0 then 0 else if x == ppn + 1 then 1 else if x >= offered then x - offered + 2
                                                   else if x <= ppn then ppn + x - 1 else ppn + x - 2
  {
    seq(offered + ppn - 2, x => if x == 0 then 0 else if x == ppn + 1 then 1 else if x >= offered then x - offered + 2
                                else if x <= ppn then ppn + x - 1 else ppn + x - 2)
  }

  lemma {:induction false} ThreeLoses(ppn: nat, numNodes: nat) returns (nodes: seq<Node>, fit: seq<Fitness>, lost: nat, run: seq<View>)
    requires ppn >= 3 && numNodes >= 2
    ensures LossyNodes(nodes, fit, ppn, numNodes, lost, run) && FitsAlways(fit)
  {
    var slots := LosingTable(ppn, numNodes);
    var ideal := LosesFromThree(ppn, numNodes);
    var pi, inv;
    nodes, pi, inv := ThreeRenumbers(ppn, numNodes);
    hide LosingTable, LosingRun, LossyNodes, Base;
    fit := Fits(|slots|);
    run := LossOnNodes(nodes, fit, slots, AllFree(|slots|), ppn, numNodes, ppn, pi, inv, ideal);
    lost := pi[ppn];
  }

  lemma {:induction false} ExceptionRenumbers(numNodes: nat) returns (nodes: seq<Node>, pi: seq<int>, inv: seq<int>)
    requires numNodes >= 2
    ensures |nodes| == 2 && ValidNodes(nodes) && !nodes[0].Blank() && !nodes[1].Blank()
    ensures nodes[0].cores == 2 && nodes[1].cores == Base(numNodes, 2) >= 2
    ensures Renumbers(ExceptionTable(numNodes), Table(nodes, 0), pi, inv) && pi[1] == 0 && inv[0] == 1
  {
    BaseMonotone(1, numNodes, 2);
    var n := Base(numNodes, 2);
    var a, b := [1, 1 + n], seq(n, c => if c == 0 then 0 else c + 1);
    assert Times([a, b]);
    TableOf([a, b]);
    SlotsOfTwo(a, b);
    nodes := NodesOf([a, b]);
    inv := a + b;
    pi := seq(n + 2, x => if x == 1 then 0 else if x == n + 1 then 1 else if x == 0 then 2 else x + 1);
  }

  lemma {:induction false} ExceptionLoses(numNodes: nat) returns (nodes: seq<Node>, fit: seq<Fitness>, lost: nat, run: seq<View>)
    requires numNodes >= 2
    ensures LossyNodes(nodes, fit, 2, numNodes, lost, run)
  {
    var slots := ExceptionTable(numNodes);
    var ideal := LosesWithException(numNodes);
    var pi, inv;
    nodes, pi, inv := ExceptionRenumbers(numNodes);
    hide ExceptionTable, LosingRun, LossyNodes, Base;
    fit := Fits(|slots|)[0 := -4];
    run := LossOnNodes(nodes, fit, slots, OneException(|slots|), 2, numNodes, 2, pi, inv, ideal);
    lost := pi[2];
  }

  /** For every other shape there are nodes for which a slot gets lost. */
  lemma {:induction false} OtherShapeLoses(ppn: nat, numNodes: nat, exceptions: bool)
    returns (nodes: seq<Node>, fit: seq<Fitness>, lost: nat, run: seq<View>)
    requires ppn >= 2 && numNodes >= 2 && (ppn == 2 ==> exceptions)
    ensures LossyNodes(nodes, fit, ppn, numNodes, lost, run) && (exceptions || FitsAlways(fit))
  {
    if ppn == 2 {
      nodes, fit, lost, run := ExceptionLoses(numNodes);
    } else {
      nodes, fit, lost, run := ThreeLoses(ppn, numNodes);
    }
  }

  /**
   No nodes make the loop lose a slot if and only if the request is for one node,
   or for one CPU per node, or for two of them without exceptions for memory.
   */
  lemma {:induction false} NeverLosesIff(ppn: nat, numNodes: nat, exceptions: bool)
    requires ppn >= 1 && numNodes >= 1
    ensures NeverLoses(ppn, numNodes, exceptions) <==> numNodes == 1 || ppn == 1 || (ppn == 2 && !exceptions)
  {
    if numNodes == 1 || ppn == 1 || (ppn == 2 && !exceptions) {
      SafeShapeNeverLoses(ppn, numNodes, exceptions);
    } else {
      var nodes, fit, lost, run := OtherShapeLoses(ppn, numNodes, exceptions);
      hide NodeRun, AllGiven, NoTies;
      var end := run[|run| - 1];
      assert EndsWith(run, Unfixed(numNodes), Selection(end.start, end.nodes, end.latest, end.cpus));
      assert lost in AllGiven(end.takes) && lost !in Elements(end.cpus);
    }
  }

  // ----- a slot that is recorded twice

  /** Four slots of node 0 and three of node 1. */
  function Seven(): (slots: seq<Slot>)
    ensures |slots| == 7
  {
    [Slot(3, 0), Slot(5, 0), Slot(0, 0), Slot(0, 0), Slot(6, 1), Slot(4, 1), Slot(0, 1)]
  }

  /** Where the loop stands: marks, record, node being filled, attempt, picks of that node, and the number of completed nodes. */
  ghost predicate Stands(v: View, marks: seq<int>, cpus: seq<int>, considered: Option<int>, attempt: int, tmp: seq<int>, n: nat) {
    && v.marks == marks && |marks| == 7 && v.cpus == cpus && v.cur.Valid(7) && v.cur.considered == considered && v.cur.attempt == attempt
    && v.tmp == tmp && |v.nodes| == n
  }

  /** The next pick is the first one of the slots that are free, or stale ones of the node being filled. */
  ghost predicate PickedNext(marks: seq<int>, considered: Option<int>, attempt: int, p: nat)
    requires |marks| == 7
  {
    && p < 7 && (marks[p] == 0 || (0 < marks[p] < attempt && considered == Some(Seven()[p].node)))
    && forall i :: 0 <= i < 7 && i != p && (marks[i] == 0 || (0 < marks[i] < attempt && considered == Some(Seven()[i].node))) ==>
         Precedes(Seven(), p, i)
  }

  ghost predicate Turned(considered: Option<int>, p: nat)
    requires p < 7
  {
    considered.Some? && considered.value != Seven()[p].node
  }

  /** One turn of the loop, from one state to the next. */
  lemma {:induction false} Goes(run: seq<View>, marks: seq<int>, cpus: seq<int>, considered: Option<int>, attempt: int, tmp: seq<int>, n: nat,
                                p: nat, at: nat,
                                marks': seq<int>, cpus': seq<int>, considered': Option<int>, attempt': int, tmp': seq<int>, n': nat)
    returns (longer: seq<View>)
    requires LoopRun(Seven(), AllFree(7), 3, Unfixed(2), run) && Stands(run[|run| - 1], marks, cpus, considered, attempt, tmp, n)
    requires PickedNext(marks, considered, attempt, p) && NOT_NOW !in marks && n < 2 && |tmp| < 3
    requires 3 * n <= |cpus| && Indexes(Seven(), cpus)
    requires var kept := if Turned(considered, p) then cpus[..3 * n] else cpus;
             at <= |kept| && InPlace(Seven(), kept, at, p) && cpus' == Insert(kept, at, p)
    requires attempt' == if Turned(considered, p) then attempt + 1 else attempt
    requires var picks := (if Turned(considered, p) then [] else tmp) + [p];
             if |picks| < 3 then marks' == marks[p := attempt'] && considered' == Some(Seven()[p].node) && tmp' == picks && n' == n
             else marks' == MarkTaken(marks[p := attempt'], picks) && considered' == None && tmp' == [] && n' == n + 1
    ensures LoopRun(Seven(), AllFree(7), 3, Unfixed(2), longer)
    ensures Stands(longer[|longer| - 1], marks', cpus', considered', attempt', tmp', n')
  {
    longer := Turn(Seven(), AllFree(7), 3, Unfixed(2), run, p, at);
  }

  /** The state behind so many turns. */
  ghost predicate Behind(v: View, turns: nat) {
    if turns == 0 then Stands(v, [0, 0, 0, 0, 0, 0, 0], [], None, 1, [], 0)
    else if turns == 2 then Stands(v, [0, 0, 1, 1, 0, 0, 0], [2, 3], Some(0), 1, [2, 3], 0)
    else if turns == 4 then Stands(v, [3, 0, 1, 1, 0, 0, 2], [0], Some(0), 3, [0], 0)
    else if turns == 6 then Stands(v, [-6, 0, -6, -6, 0, 0, 2], [2, 3, 0], None, 3, [], 1)
    else if turns == 8 then Stands(v, [-6, 0, -6, -6, 0, 3, 3], [2, 3, 6, 0, 5], Some(1), 3, [5, 6], 1)
    else if turns == 10 then Stands(v, [-6, 4, -6, -6, 5, 3, 3], [2, 3, 6, 4], Some(1), 5, [4], 1)
    else if turns == 12 then Stands(v, [-6, 4, -6, -6, -6, -6, -6], [2, 3, 6, 6, 5, 4], None, 5, [], 2)
    else false
  }

  lemma {:induction false} TwoTurns0(run: seq<View>) returns (longer: seq<View>)
    requires LoopRun(Seven(), AllFree(7), 3, Unfixed(2), run) && Behind(run[|run| - 1], 0)
    ensures LoopRun(Seven(), AllFree(7), 3, Unfixed(2), longer) && Behind(longer[|longer| - 1], 2)
  {
    hide LoopRun, Stands;
    longer := Goes(run, [0, 0, 0, 0, 0, 0, 0], [], None, 1, [], 0, 2, 0,
                   [0, 0, 1, 0, 0, 0, 0], [2], Some(0), 1, [2], 0);
    longer := Goes(longer, [0, 0, 1, 0, 0, 0, 0], [2], Some(0), 1, [2], 0, 3, 1,
                   [0, 0, 1, 1, 0, 0, 0], [2, 3], Some(0), 1, [2, 3], 0);
  }

  lemma {:induction false} TwoTurns2(run: seq<View>) returns (longer: seq<View>)
    requires LoopRun(Seven(), AllFree(7), 3, Unfixed(2), run) && Behind(run[|run| - 1], 2)
    ensures LoopRun(Seven(), AllFree(7), 3, Unfixed(2), longer) && Behind(longer[|longer| - 1], 4)
  {
    hide LoopRun, Stands;
    longer := Goes(run, [0, 0, 1, 1, 0, 0, 0], [2, 3], Some(0), 1, [2, 3], 0, 6, 0,
                   [0, 0, 1, 1, 0, 0, 2], [6], Some(1), 2, [6], 0);
    longer := Goes(longer, [0, 0, 1, 1, 0, 0, 2], [6], Some(1), 2, [6], 0, 0, 0,
                   [3, 0, 1, 1, 0, 0, 2], [0], Some(0), 3, [0], 0);
  }

  lemma {:induction false} TwoTurns4(run: seq<View>) returns (longer: seq<View>)
    requires LoopRun(Seven(), AllFree(7), 3, Unfixed(2), run) && Behind(run[|run| - 1], 4)
    ensures LoopRun(Seven(), AllFree(7), 3, Unfixed(2), longer) && Behind(longer[|longer| - 1], 6)
  {
    hide LoopRun, Stands;
    longer := Goes(run, [3, 0, 1, 1, 0, 0, 2], [0], Some(0), 3, [0], 0, 2, 0,
                   [3, 0, 3, 1, 0, 0, 2], [2, 0], Some(0), 3, [0, 2], 0);
    longer := Goes(longer, [3, 0, 3, 1, 0, 0, 2], [2, 0], Some(0), 3, [0, 2], 0, 3, 1,
                   [-6, 0, -6, -6, 0, 0, 2], [2, 3, 0], None, 3, [], 1);
  }

  lemma {:induction false} TwoTurns6(run: seq<View>) returns (longer: seq<View>)
    requires LoopRun(Seven(), AllFree(7), 3, Unfixed(2), run) && Behind(run[|run| - 1], 6)
    ensures LoopRun(Seven(), AllFree(7), 3, Unfixed(2), longer) && Behind(longer[|longer| - 1], 8)
  {
    hide LoopRun, Stands;
    longer := Goes(run, [-6, 0, -6, -6, 0, 0, 2], [2, 3, 0], None, 3, [], 1, 5, 3,
                   [-6, 0, -6, -6, 0, 3, 2], [2, 3, 0, 5], Some(1), 3, [5], 1);
    longer := Goes(longer, [-6, 0, -6, -6, 0, 3, 2], [2, 3, 0, 5], Some(1), 3, [5], 1, 6, 2,
                   [-6, 0, -6, -6, 0, 3, 3], [2, 3, 6, 0, 5], Some(1), 3, [5, 6], 1);
  }

  lemma {:induction false} TwoTurns8(run: seq<View>) returns (longer: seq<View>)
    requires LoopRun(Seven(), AllFree(7), 3, Unfixed(2), run) && Behind(run[|run| - 1], 8)
    ensures LoopRun(Seven(), AllFree(7), 3, Unfixed(2), longer) && Behind(longer[|longer| - 1], 10)
  {
    hide LoopRun, Stands;
    longer := Goes(run, [-6, 0, -6, -6, 0, 3, 3], [2, 3, 6, 0, 5], Some(1), 3, [5, 6], 1, 1, 3,
                   [-6, 4, -6, -6, 0, 3, 3], [2, 3, 6, 1], Some(0), 4, [1], 1);
    longer := Goes(longer, [-6, 4, -6, -6, 0, 3, 3], [2, 3, 6, 1], Some(0), 4, [1], 1, 4, 3,
                   [-6, 4, -6, -6, 5, 3, 3], [2, 3, 6, 4], Some(1), 5, [4], 1);
  }

  lemma {:induction false} TwoTurns10(run: seq<View>) returns (longer: seq<View>)
    requires LoopRun(Seven(), AllFree(7), 3, Unfixed(2), run) && Behind(run[|run| - 1], 10)
    ensures LoopRun(Seven(), AllFree(7), 3, Unfixed(2), longer) && Behind(longer[|longer| - 1], 12)
  {
    hide LoopRun, Stands;
    longer := Goes(run, [-6, 4, -6, -6, 5, 3, 3], [2, 3, 6, 4], Some(1), 5, [4], 1, 6, 3,
                   [-6, 4, -6, -6, 5, 3, 5], [2, 3, 6, 6, 4], Some(1), 5, [4, 6], 1);
    longer := Goes(longer, [-6, 4, -6, -6, 5, 3, 5], [2, 3, 6, 6, 4], Some(1), 5, [4, 6], 1, 5, 4,
                   [-6, 4, -6, -6, -6, -6, -6], [2, 3, 6, 6, 5, 4], None, 5, [], 2);
  }

  /** The nodes with these slots make the loop record slot 6 twice. */
  lemma {:induction false} RecordedTwice() returns (nodes: seq<Node>, run: seq<View>)
    ensures NodeRun(nodes, 0, Unfixed(2), 3, Fits(7), run) && Table(nodes, 0) == Seven()
    ensures EndsWith(run, Unfixed(2), Selection(run[|run| - 1].start, run[|run| - 1].nodes, run[|run| - 1].latest, [2, 3, 6, 6, 5, 4]))
  {
    var a, b := [3, 5, 0, 0], [6, 4, 0];
    TableOf([a, b]);
    SlotsOfTwo(a, b);
    nodes := NodesOf([a, b]);
    assert Table(nodes, 0) == Seven();
    MarksAreFitness(nodes, 0, Unfixed(2), 3, Fits(7));
    assert Fits(7) == AllFree(7);
    run := [Begin(AllFree(7))];
    assert Begin(AllFree(7)).marks == [0, 0, 0, 0, 0, 0, 0];
    hide Table;
    run := TwoTurns0(run);
    run := TwoTurns2(run);
    run := TwoTurns4(run);
    run := TwoTurns6(run);
    run := TwoTurns8(run);
    run := TwoTurns10(run);
  }
}
