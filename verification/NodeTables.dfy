/** Slot tables of given nodes, and the marks that the slots get there (plan_first_free_slot.cpp, plan_operations.cpp:222-300). */
module NodeTables {
  import opened PlanLists
  import opened PlanJobs
  import opened SlotSelection
  import opened Gaps
  import opened GapEmission
  import opened SlotBooking
  import opened SlotTable
  import opened JobPlanning

  /** The table lists as many slots of a node as the node has cores. */
  lemma {:induction false} CoresInTable(nodes: seq<Node>, now: int, i: nat)
    requires ValidNodes(nodes) && i < |nodes|
    ensures CoresOf(Table(nodes, now), i) == nodes[i].cores
  {
    var l := |nodes| - 1;
    var s := NodeSlots(nodes[l], l, now);
    if i < l {
      CoresInTable(nodes[..l], now, i);
      CoresOfOthers(Table(nodes[..l], now), s, l, i, |s|);
    } else {
      NoCoresOf(Table(nodes[..l], now), l, l);
      TableNodes(nodes[..l], now);
      CoresOfOwn(Table(nodes[..l], now), s, l, |s|);
    }
    assert s[..|s|] == s;
  }

  lemma {:induction false} TableNodes(nodes: seq<Node>, now: int)
    requires ValidNodes(nodes)
    ensures forall x :: 0 <= x < |Table(nodes, now)| ==> 0 <= Table(nodes, now)[x].node < |nodes|
  {
    if nodes != [] {
      TableNodes(nodes[..|nodes| - 1], now);
    }
  }

  lemma {:induction false} NoCoresOf(slots: seq<Slot>, n: int, i: int)
    ensures (forall x :: 0 <= x < |slots| ==> slots[x].node < n) && i >= n ==> CoresOf(slots, i) == 0
  {
    if slots != [] {
      NoCoresOf(slots[..|slots| - 1], n, i);
    }
  }

  lemma {:induction false} CoresOfOwn(front: seq<Slot>, s: seq<Slot>, i: int, k: nat)
    requires k <= |s| && forall c :: 0 <= c < |s| ==> s[c].node == i
    ensures CoresOf(front + s[..k], i) == CoresOf(front, i) + k
  {
    if k > 0 {
      CoresOfOwn(front, s, i, k - 1);
      assert (front + s[..k])[..|front| + k - 1] == front + s[..k - 1];
    } else {
      assert front + s[..0] == front;
    }
  }

  lemma {:induction false} CoresOfOthers(front: seq<Slot>, s: seq<Slot>, n: int, i: int, k: nat)
    requires k <= |s| && i != n && forall c :: 0 <= c < |s| ==> s[c].node == n
    ensures CoresOf(front + s[..k], i) == CoresOf(front, i)
  {
    if k > 0 {
      CoresOfOthers(front, s, n, i, k - 1);
      assert (front + s[..k])[..|front| + k - 1] == front + s[..k - 1];
    } else {
      assert front + s[..0] == front;
    }
  }

  // ----- nodes with given times

  /** A node in service with one core per time, occupied until then; cores with time 0 are idle. */
  function NodeOf(times: seq<int>): (n: Node)
    ensures n.Valid() && n.cores == |times| && !n.Blank()
  {
    Node(|times|, false, false, false, false, false, false,
         Some(seq(|times|, c requires 0 <= c < |times| => if times[c] == 0 then None else Some(CpuJob(0, times[c])))))
  }

  function NodesOf(all: seq<seq<int>>): (nodes: seq<Node>)
    ensures |nodes| == |all| && ValidNodes(nodes) && forall i :: 0 <= i < |all| ==> nodes[i] == NodeOf(all[i])
  {
    seq(|all|, i requires 0 <= i < |all| => NodeOf(all[i]))
  }

  function SlotsOf(all: seq<seq<int>>): seq<Slot> {
    if all == [] then []
    else
      var l := |all| - 1;
      SlotsOf(all[..l]) + seq(|all[l]|, c requires 0 <= c < |all[l]| => Slot(all[l][c], l))
  }

  ghost predicate Times(all: seq<seq<int>>) {
    forall i, c :: 0 <= i < |all| && 0 <= c < |all[i]| ==> all[i][c] >= 0
  }

  lemma {:induction false} TableOf(all: seq<seq<int>>)
    requires Times(all)
    ensures Table(NodesOf(all), 0) == SlotsOf(all)
  {
    if all != [] {
      var l := |all| - 1;
      TableOf(all[..l]);
      assert NodesOf(all)[..l] == NodesOf(all[..l]);
      assert NodeSlots(NodeOf(all[l]), l, 0) == seq(|all[l]|, c requires 0 <= c < |all[l]| => Slot(all[l][c], l));
    }
  }

  /** The slots of two nodes. */
  lemma {:induction false} SlotsOfTwo(a: seq<int>, b: seq<int>)
    ensures var s := SlotsOf([a, b]);
            && |s| == |a| + |b|
            && forall y :: 0 <= y < |s| ==> s[y] == if y < |a| then Slot(a[y], 0) else Slot(b[y - |a|], 1)
  {
    assert [a, b][..1] == [a] && [a][..0] == [];
    assert SlotsOf([]) == [];
    assert |SlotsOf([a])| == |a|;
  }

  // ----- marks

  /** Every slot fits, as far as memory, GPUs, walltime bounds and downtime are concerned. */
  function Fits(n: nat): (fit: seq<Fitness>)
    ensures |fit| == n && forall i :: 0 <= i < n ==> fit[i] == 0
  {
    seq(n, _ => 0)
  }

  /** All nodes are in service and have enough cores, so the marks of a job that is not fixed are what memory allows. */
  lemma {:induction false} MarksAreFitness(nodes: seq<Node>, now: int, names: seq<Option<int>>, ppn: int, fit: seq<Fitness>)
    requires ValidNodes(nodes) && now >= 0 && |fit| == |Table(nodes, now)| && None in names
    requires forall i :: 0 <= i < |nodes| ==> !nodes[i].Blank() && ppn <= nodes[i].cores
    ensures FirstMarks(names, ppn, Table(nodes, now), fit) == fit
  {
    var slots := Table(nodes, now);
    TableTimes(nodes, now);
    forall x | 0 <= x < |slots|
      ensures FirstMarks(names, ppn, slots, fit)[x] == fit[x]
    {
      CoresInTable(nodes, now, slots[x].node);
    }
  }
}
