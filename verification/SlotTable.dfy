/**
 The table of free slots at the beginning of a run (plan_first_free_slot.cpp):
 one slot for every core of every node of the cluster.
 */
module SlotTable {
  import opened PlanJobs
  import opened SlotSelection
  import opened Gaps
  import opened GapEmission
  import opened SlotBooking

  /** A job that runs on a core: when it started and how long it may run. */
  datatype CpuJob = CpuJob(startTime: int, walltime: int)

  datatype Node = Node(cores: nat, down: bool, offline: bool, notUsable: bool,
                       unknown: bool, reserved: bool, busy: bool,
                       jobsOnCpu: Option<seq<Option<CpuJob>>>)
  {
    predicate Valid() {
      jobsOnCpu.Some? ==> |jobsOnCpu.value| == cores
    }

    predicate OutOfService() {
      down || offline || notUsable
    }

    predicate Blank() {
      OutOfService() || unknown || reserved || busy
    }
  }

  /** When a core of a node becomes free. */
  function CoreTime(n: Node, core: nat, now: int): (t: int)
    requires n.Valid() && core < n.cores
  {
    if n.Blank() then -1
    else if n.jobsOnCpu == None || n.jobsOnCpu.value[core] == None then now
    else
      var j := n.jobsOnCpu.value[core].value;
      if j.startTime + j.walltime <= now then now + 1 else j.startTime + j.walltime
  }

  function NodeSlots(n: Node, id: int, now: int): (s: seq<Slot>)
    requires n.Valid()
    ensures |s| == n.cores
  {
    seq(n.cores, c requires 0 <= c < n.cores => Slot(CoreTime(n, c, now), id))
  }

  predicate ValidNodes(nodes: seq<Node>) {
    forall i :: 0 <= i < |nodes| ==> nodes[i].Valid()
  }

  /** The slots of the nodes, one node after the other. */
  function Table(nodes: seq<Node>, now: int): seq<Slot>
    requires ValidNodes(nodes)
  {
    if nodes == [] then []
    else
      var l := |nodes| - 1;
      Table(nodes[..l], now) + NodeSlots(nodes[l], l, now)
  }

  function CountCores(nodes: seq<Node>): nat {
    if nodes == [] then 0 else CountCores(nodes[..|nodes| - 1]) + nodes[|nodes| - 1].cores
  }

  lemma {:induction false} CoresPrefix(nodes: seq<Node>, i: nat)
    requires i <= |nodes|
    ensures CountCores(nodes[..i]) <= CountCores(nodes)
  {
    if i < |nodes| {
      var l := |nodes| - 1;
      CoresPrefix(nodes[..l], i);
      assert nodes[..l][..i] == nodes[..i];
    } else {
      assert nodes[..i] == nodes;
    }
  }

  /** Fills the slots of one node, from a position of the table on. */
  method FillNode(slots: array<Slot>, counter: nat, n: Node, i: nat, now: int)
    requires n.Valid() && counter + n.cores <= slots.Length
    modifies slots
    ensures slots[..counter] == old(slots[..counter])
    ensures slots[..counter + n.cores] == old(slots[..counter]) + NodeSlots(n, i, now)
  {
    ghost var before := slots[..counter];
    for j := 0 to n.cores
      invariant slots[..counter] == before
      invariant forall c :: 0 <= c < j ==> slots[counter + c] == NodeSlots(n, i, now)[c]
    {
      var time;
      if n.Blank() {
        time := -1;
      } else if n.jobsOnCpu == None {
        time := now;
      } else if n.jobsOnCpu.value[j] == None {
        time := now;
      } else {
        var job := n.jobsOnCpu.value[j].value;
        time := job.startTime + job.walltime;
        if time <= now {
          time := now + 1;
        }
      }
      slots[counter + j] := Slot(time, i);
      assert slots[..counter] == before;
    }
    assert slots[..counter + n.cores] == before + NodeSlots(n, i, now);
  }

  /** Creates and fills the table; also counts the CPUs of nodes that are not blank. */
  method FirstFreeSlots(nodes: seq<Node>, now: int) returns (slots: array<Slot>, runningCpus: int)
    requires ValidNodes(nodes) && now >= 0
    ensures fresh(slots) && slots[..] == Table(nodes, now)
    ensures runningCpus == InServiceCount(slots[..], Usage)
  {
    var numCpus := CountCores(nodes);
    slots := new Slot[numCpus](_ => Slot(-1, -1));
    runningCpus := numCpus;
    var counter := 0;
    for i := 0 to |nodes|
      invariant counter == CountCores(nodes[..i]) <= numCpus && slots.Length == numCpus
      invariant slots[..counter] == Table(nodes[..i], now)
      invariant runningCpus == numCpus - counter + InServiceCount(slots[..counter], Usage)
    {
      CoresPrefix(nodes, i + 1);
      assert nodes[..i + 1][..i] == nodes[..i];
      var n := nodes[i];
      NodeInService(slots[..counter], n, i, now);
      FillNode(slots, counter, n, i, now);
      if n.Blank() {
        runningCpus := runningCpus - n.cores;
      }
      counter := counter + n.cores;
    }
    assert nodes[..|nodes|] == nodes;
    assert slots[..counter] == slots[..];
  }

  lemma {:induction false} NodeInService(before: seq<Slot>, n: Node, id: int, now: int)
    requires n.Valid() && now >= 0
    ensures InServiceCount(before + NodeSlots(n, id, now), Usage) ==
            InServiceCount(before, Usage) + if n.Blank() then 0 else n.cores
  {
    var s := NodeSlots(n, id, now);
    CountUniform(before, s, |s|, !n.Blank());
    assert s[..|s|] == s;
  }

  lemma {:induction false} CountUniform(before: seq<Slot>, s: seq<Slot>, k: nat, live: bool)
    requires k <= |s| && forall c :: 0 <= c < |s| ==> (s[c].time >= 0 <==> live)
    ensures InServiceCount(before + s[..k], Usage) == InServiceCount(before, Usage) + if live then k else 0
  {
    if k > 0 {
      CountUniform(before, s, k - 1, live);
      assert (before + s[..k])[..|before| + k - 1] == before + s[..k - 1];
    } else {
      assert before + s[..0] == before;
    }
  }

  /** The nodes whose slots the gaps behind the last job leave out. */
  function OutOfServiceNodes(nodes: seq<Node>): set<int> {
    set i | 0 <= i < |nodes| && nodes[i].OutOfService()
  }

  /** The slots of a table belong to their nodes, and no time lies before now. */
  lemma {:induction false} TableTimes(nodes: seq<Node>, now: int)
    requires ValidNodes(nodes) && now >= 0
    ensures forall x :: 0 <= x < |Table(nodes, now)| ==>
              var s := Table(nodes, now)[x];
              0 <= s.node < |nodes| && if nodes[s.node].Blank() then s.time == -1 else s.time >= now
  {
    if nodes != [] {
      TableTimes(nodes[..|nodes| - 1], now);
    }
  }

  /**
   The table is one that the planner can work with exactly when no node with
   cores is blank for another reason than being out of service.
   */
  lemma {:induction false} TableInServiceIff(nodes: seq<Node>, now: int)
    requires ValidNodes(nodes) && now >= 0
    ensures InService(Table(nodes, now), OutOfServiceNodes(nodes)) <==>
            forall i :: 0 <= i < |nodes| && nodes[i].cores > 0 && (nodes[i].unknown || nodes[i].reserved || nodes[i].busy) ==>
              nodes[i].down || nodes[i].offline || nodes[i].notUsable
  {
    var t, down := Table(nodes, now), OutOfServiceNodes(nodes);
    TableTimes(nodes, now);
    if InService(t, down) {
      forall i | 0 <= i < |nodes| && nodes[i].cores > 0
        ensures nodes[i].Blank() ==> nodes[i].OutOfService()
      {
        var x := SlotOfNode(nodes, now, i);
      }
    } else {
      var x :| 0 <= x < |t| && !(if t[x].node in down then t[x].time == -1 else t[x].time >= 0);
      NodeOfSlot(nodes, now, x);
    }
  }

  /** Where the table lists a core of a node. */
  function CorePosition(nodes: seq<Node>, i: nat, c: nat): nat
    requires i <= |nodes|
  {
    CountCores(nodes[..i]) + c
  }

  /**
   What the table says of each core of each node, in the fields of the node: the core
   is not listed as free when the node is out of service, reserved, busy or unknown;
   otherwise it is free now if no job runs on it, and behind now from the instant on
   when such a job has started for as long as its walltime.
   */
  lemma {:induction false} CoresOfTable(nodes: seq<Node>, now: int, i: nat, c: nat, t: int)
    requires ValidNodes(nodes) && now >= 0 && i < |nodes| && c < nodes[i].cores
    ensures CorePosition(nodes, i, c) < |Table(nodes, now)| && Table(nodes, now)[CorePosition(nodes, i, c)].node == i
    ensures var n, s := nodes[i], Table(nodes, now)[CorePosition(nodes, i, c)];
            if n.down || n.offline || n.notUsable || n.unknown || n.reserved || n.busy then s.time == -1
            else
              && s.time >= now
              && (s.time == now <==> n.jobsOnCpu == None || n.jobsOnCpu.value[c] == None)
              && (t > now ==>
                   (s.time <= t <==> n.jobsOnCpu == None || n.jobsOnCpu.value[c] == None
                                     || n.jobsOnCpu.value[c].value.startTime + n.jobsOnCpu.value[c].value.walltime <= t))
  {
    var l := |nodes| - 1;
    TableLength(nodes[..l], now);
    if i < l {
      CoresOfTable(nodes[..l], now, i, c, t);
      assert nodes[..l][..i] == nodes[..i];
    }
  }

  lemma {:induction false} TableLength(nodes: seq<Node>, now: int)
    requires ValidNodes(nodes)
    ensures |Table(nodes, now)| == CountCores(nodes)
  {
    if nodes != [] {
      TableLength(nodes[..|nodes| - 1], now);
    }
  }

  /** Every slot of the table is a core of a node. */
  lemma {:induction false} SlotIsCore(nodes: seq<Node>, now: int, x: nat) returns (i: nat, c: nat)
    requires ValidNodes(nodes) && x < |Table(nodes, now)|
    ensures i < |nodes| && c < nodes[i].cores && x == CorePosition(nodes, i, c) && Table(nodes, now)[x].node == i
  {
    var l := |nodes| - 1;
    TableLength(nodes[..l], now);
    if x < |Table(nodes[..l], now)| {
      i, c := SlotIsCore(nodes[..l], now, x);
      assert nodes[..l][..i] == nodes[..i];
    } else {
      i, c := l, x - |Table(nodes[..l], now)|;
    }
  }

  lemma {:induction false} SlotOfNode(nodes: seq<Node>, now: int, i: nat) returns (x: nat)
    requires ValidNodes(nodes) && i < |nodes| && nodes[i].cores > 0
    ensures x < |Table(nodes, now)| && Table(nodes, now)[x].node == i
  {
    var l := |nodes| - 1;
    if i == l {
      x := |Table(nodes[..l], now)|;
    } else {
      x := SlotOfNode(nodes[..l], now, i);
    }
  }

  lemma {:induction false} NodeOfSlot(nodes: seq<Node>, now: int, x: nat)
    requires ValidNodes(nodes) && x < |Table(nodes, now)|
    ensures var i := Table(nodes, now)[x].node; 0 <= i < |nodes| && nodes[i].cores > 0
  {
    var l := |nodes| - 1;
    if x < |Table(nodes[..l], now)| {
      NodeOfSlot(nodes[..l], now, x);
    }
  }
}
