/**
 Turning idle slots into gaps (plan_operations.cpp, plan_gaps.cpp and
 plan_gaps_memory.cpp): in front of a planned job, and behind the last one.
 Slots of nodes that are out of service have the time -1.
 */
module GapEmission {
  import opened PlanLists
  import opened PlanJobs
  import opened SlotSelection
  import opened Gaps

  predicate Counts(s: Slot, m: Measure) {
    m == Usage || m == OnNode(s.node)
  }

  /** How many slots, of all nodes or of one, are idle from an instant on or longer. */
  function FreeBy(slots: seq<Slot>, t: int, m: Measure): nat {
    if slots == [] then 0
    else
      var s := slots[|slots| - 1];
      FreeBy(slots[..|slots| - 1], t, m) + if 0 <= s.time <= t && Counts(s, m) then 1 else 0
  }

  /** The latest time of a slot, -1 when there is none in service. */
  function Latest(slots: seq<Slot>): int {
    if slots == [] then -1
    else
      var l := Latest(slots[..|slots| - 1]);
      if slots[|slots| - 1].time > l then slots[|slots| - 1].time else l
  }

  function Chosen(slots: seq<Slot>, cpus: seq<int>): (sel: seq<Slot>)
    requires Indexes(slots, cpus)
    ensures |sel| == |cpus|
    ensures forall j :: 0 <= j < |sel| ==> sel[j] == slots[cpus[j]]
  {
    seq(|cpus|, j requires 0 <= j < |cpus| => slots[cpus[j]])
  }

  /** When no slot becomes idle in between, as many are idle at both instants. */
  lemma {:induction false} FreeByConstant(slots: seq<Slot>, t: int, u: int, m: Measure)
    requires t <= u
    requires forall i :: 0 <= i < |slots| ==> !(0 <= slots[i].time && t < slots[i].time <= u)
    ensures FreeBy(slots, t, m) == FreeBy(slots, u, m)
  {
    if slots != [] {
      FreeByConstant(slots[..|slots| - 1], t, u, m);
    }
  }

  lemma {:induction false} FreeByNone(slots: seq<Slot>, t: int, m: Measure)
    requires forall i :: 0 <= i < |slots| ==> !(0 <= slots[i].time <= t)
    ensures FreeBy(slots, t, m) == 0
  {
    if slots != [] {
      FreeByNone(slots[..|slots| - 1], t, m);
    }
  }

  /** Idle time in front of an instant, summed over the slots. */
  function IdleBefore(slots: seq<Slot>, t: int): int {
    if slots == [] then 0
    else
      var s := slots[|slots| - 1];
      IdleBefore(slots[..|slots| - 1], t) + if 0 <= s.time <= t then t - s.time else 0
  }

  /** CPU time that a gap list offers. */
  function Area(gs: seq<Gap>): int {
    if gs == [] then 0 else Area(gs[..|gs| - 1]) + gs[|gs| - 1].usage * gs[|gs| - 1].duration
  }

  lemma {:induction false} IdleGrows(slots: seq<Slot>, t: int, u: int)
    requires t <= u
    requires forall i :: 0 <= i < |slots| ==> !(0 <= slots[i].time && t < slots[i].time < u)
    ensures IdleBefore(slots, u) == IdleBefore(slots, t) + FreeBy(slots, t, Usage) * (u - t)
  {
    if slots != [] {
      var l := |slots| - 1;
      IdleGrows(slots[..l], t, u);
      var n := FreeBy(slots[..l], t, Usage);
      assert (n + 1) * (u - t) == n * (u - t) + (u - t);
    }
  }

  /** Counts the slots that are idle before the end of the gap, in all and per node. */
  method GapMemoryCreate(gap: Item<Gap>, cpus: seq<int>, slots: seq<Slot>)
    requires Indexes(slots, cpus)
    requires forall j :: 0 <= j < |cpus| ==> slots[cpus[j]].time >= 0
    modifies gap`value
    ensures gap.value == old(gap.value).(usage := gap.value.usage, nodes := gap.value.nodes)
    ensures gap.value.usage == TotalCpus(gap.value.nodes)
    ensures forall m :: Amount(gap.value, m) == FreeBy(Chosen(slots, cpus), gap.value.endTime - 1, m)
  {
    var g := gap.value;
    ghost var sel := Chosen(slots, cpus);
    var usage := 0;
    var nodes: seq<NodeCpus> := [];
    for j := 0 to |cpus|
      invariant usage == TotalCpus(nodes) == FreeBy(sel[..j], g.endTime - 1, Usage)
      invariant forall n :: CpusOf(nodes, n) == FreeBy(sel[..j], g.endTime - 1, OnNode(n))
    {
      assert sel[..j + 1][..j] == sel[..j] && sel[..j + 1][j] == slots[cpus[j]];
      if slots[cpus[j]].time < g.endTime {
        usage := usage + 1;
        nodes := CountNode(nodes, slots[cpus[j]].node);
      }
    }
    assert sel[..|cpus|] == sel;
    gap.value := g.(usage := usage, nodes := nodes);
  }

  /** One more CPU of a node, which may be a new one. */
  method CountNode(nodes: seq<NodeCpus>, node: int) returns (counted: seq<NodeCpus>)
    ensures forall n :: CpusOf(counted, n) == CpusOf(nodes, n) + if n == node then 1 else 0
    ensures TotalCpus(counted) == TotalCpus(nodes) + 1
  {
    var knownNode := -1;
    for k := 0 to |nodes|
      invariant knownNode == -1 || (0 <= knownNode < |nodes| && nodes[knownNode].node == node)
    {
      if nodes[k].node == node {
        knownNode := k;
      }
    }
    if knownNode == -1 {
      counted := nodes + [NodeCpus(node, 1)];
      assert counted[..|nodes|] == nodes;
    } else {
      CpusUpdateAll(nodes, knownNode, 1);
      counted := nodes[knownNode := NodeCpus(nodes[knownNode].node, nodes[knownNode].cpus + 1)];
    }
  }

  /** The gaps show, before the instant end, exactly the idle slots, and nothing from then on. */
  ghost predicate Shows(gs: seq<Gap>, slots: seq<Slot>, end: int) {
    forall t, m :: Profile(gs, t, m) == if t < end then FreeBy(slots, t, m) else 0
  }

  /** The next gap reaches from the last time at which slots became idle to the next such time, or to a bound. */
  lemma {:induction false} ShowsMore(gs: seq<Gap>, slots: seq<Slot>, g: Gap)
    requires GapSequence(gs) && Shows(gs, slots, g.startTime)
    requires gs != [] ==> gs[|gs| - 1].endTime <= g.startTime
    requires g.startTime < g.endTime && g.duration == g.endTime - g.startTime && g.usage == TotalCpus(g.nodes)
    requires forall i :: 0 <= i < |slots| ==> !(0 <= slots[i].time && g.startTime < slots[i].time < g.endTime)
    requires forall m :: Amount(g, m) == FreeBy(slots, g.endTime - 1, m)
    ensures GapSequence(gs + [g]) && Shows(gs + [g], slots, g.endTime)
  {
    assert Insert(gs, |gs|, g) == gs + [g];
    InsertedGap(gs, |gs|, g);
    hide GapSequence, Amount;
    forall t, m
      ensures Profile(gs + [g], t, m) == if t < g.endTime then FreeBy(slots, t, m) else 0
    {
      ShowsMoreAt(gs, slots, g, t, m);
    }
  }

  lemma {:induction false} ShowsMoreAt(gs: seq<Gap>, slots: seq<Slot>, g: Gap, t: int, m: Measure)
    requires Shows(gs, slots, g.startTime) && g.startTime < g.endTime
    requires forall i :: 0 <= i < |slots| ==> !(0 <= slots[i].time && g.startTime < slots[i].time < g.endTime)
    requires Amount(g, m) == FreeBy(slots, g.endTime - 1, m)
    ensures Profile(gs + [g], t, m) == if t < g.endTime then FreeBy(slots, t, m) else 0
  {
    assert (gs + [g])[..|gs|] == gs;
    assert Profile(gs, t, m) == if t < g.startTime then FreeBy(slots, t, m) else 0;
    if g.startTime <= t < g.endTime {
      FreeByConstant(slots, t, g.endTime - 1, m);
    }
  }

  /** ... and its area is the idle time of that interval. */
  lemma {:induction false} AreaGrows(gs: seq<Gap>, slots: seq<Slot>, g: Gap)
    requires g.startTime < g.endTime && g.duration == g.endTime - g.startTime
    requires forall i :: 0 <= i < |slots| ==> !(0 <= slots[i].time && g.startTime < slots[i].time < g.endTime)
    requires g.usage == FreeBy(slots, g.endTime - 1, Usage)
    requires Area(gs) == IdleBefore(slots, g.startTime)
    ensures Area(gs + [g]) == IdleBefore(slots, g.endTime)
  {
    IdleGrows(slots, g.startTime, g.endTime);
    FreeByConstant(slots, g.startTime, g.endTime - 1, Usage);
    assert (gs + [g])[..|gs|] == gs;
  }

  lemma {:induction false} ShowsNothingBefore(slots: seq<Slot>, end: int)
    requires forall i :: 0 <= i < |slots| ==> !(0 <= slots[i].time < end)
    ensures Shows([], slots, end) && IdleBefore(slots, end) == 0
  {
    forall t, m
      ensures Profile([], t, m) == if t < end then FreeBy(slots, t, m) else 0
    {
      if t < end {
        FreeByNone(slots, t, m);
      }
    }
    IdleNone(slots, end);
  }

  lemma {:induction false} IdleNone(slots: seq<Slot>, end: int)
    requires forall i :: 0 <= i < |slots| ==> !(0 <= slots[i].time < end)
    ensures IdleBefore(slots, end) == 0
  {
    if slots != [] {
      IdleNone(slots[..|slots| - 1], end);
    }
  }

  /** A list of gaps under construction, and what it shows. */
  ghost predicate Emitted(gs: seq<Gap>, slots: seq<Slot>, end: int) {
    && GapSequence(gs) && Shows(gs, slots, end) && Area(gs) == IdleBefore(slots, end)
    && (gs != [] ==> gs[|gs| - 1].endTime <= end)
  }

  lemma {:induction false} EmittedNothing(slots: seq<Slot>, end: int)
    requires forall i :: 0 <= i < |slots| ==> !(0 <= slots[i].time < end)
    ensures Emitted([], slots, end)
  {
    ShowsNothingBefore(slots, end);
  }

  lemma {:induction false} EmittedMore(gs: seq<Gap>, slots: seq<Slot>, g: Gap)
    requires Emitted(gs, slots, g.startTime) && g.startTime < g.endTime
    requires g.duration == g.endTime - g.startTime && g.usage == TotalCpus(g.nodes)
    requires forall i :: 0 <= i < |slots| ==> !(0 <= slots[i].time && g.startTime < slots[i].time < g.endTime)
    requires forall m :: Amount(g, m) == FreeBy(slots, g.endTime - 1, m)
    ensures Emitted(gs + [g], slots, g.endTime)
  {
    ShowsMore(gs, slots, g);
    assert Amount(g, Usage) == g.usage;
    AreaGrows(gs, slots, g);
  }

  /**
   The gaps in front of a job: at every instant before the latest of its slots is
   free they show how many of its slots are idle, node by node, and their area
   is the time for which the slots wait for each other.
   */
  method EmitGaps(slots: seq<Slot>, cpus: seq<int>) returns (gaps: PlanList<Gap>)
    requires Indexes(slots, cpus) && SortedByTime(slots, cpus) && cpus != []
    requires forall j :: 0 <= j < |cpus| ==> slots[cpus[j]].time >= 0
    ensures fresh(gaps) && gaps.Valid() && forall i :: 0 <= i < |gaps.items| ==> fresh(gaps.items[i])
    ensures Emitted(gaps.Values(), Chosen(slots, cpus), slots[cpus[|cpus| - 1]].time)
  {
    hide Emitted;
    ghost var sel := Chosen(slots, cpus);
    gaps := new PlanList<Gap>();
    assert gaps.Values() == [];
    var gapStart := -1;
    var jobCpu := 0;
    while jobCpu < |cpus|
      invariant 0 <= jobCpu <= |cpus|
      invariant fresh(gaps) && gaps.Valid() && forall i :: 0 <= i < |gaps.items| ==> fresh(gaps.items[i])
      invariant if jobCpu == 0 then gapStart == -1 && gaps.items == [] && gaps.Values() == []
                else gapStart == sel[jobCpu - 1].time >= 0 && Emitted(gaps.Values(), sel, gapStart)
    {
      var cpuIndex := cpus[jobCpu];
      assert slots[cpuIndex] == sel[jobCpu];
      if gapStart == -1 {
        gapStart := slots[cpuIndex].time;
        EmittedNothing(sel, gapStart);
      }
      if gapStart != slots[cpuIndex].time {
        var gapEnd := slots[cpuIndex].time;
        var newGap := new Item(Gap(gapStart, gapEnd, gapEnd - gapStart, jobCpu, []));
        GapMemoryCreate(newGap, cpus, slots);
        EmittedMore(gaps.Values(), sel, newGap.value);
        PutLast(gaps, newGap);
        gapStart := slots[cpuIndex].time;
      }
      jobCpu := jobCpu + 1;
    }
  }

  // ----- idle slots behind the last job

  /** Picks the first of the earliest slots not picked before. */
  method GapsIthSmallest(slots: seq<Slot>, avail: array<int>) returns (result: int)
    requires avail.Length == |slots|
    modifies avail
    ensures result == -1 ==> avail[..] == old(avail[..]) && forall i :: 0 <= i < |slots| ==> avail[i] != 0
    ensures result != -1 ==>
              && 0 <= result < |slots| && old(avail[result]) == 0 && avail[..] == old(avail[..])[result := 1]
              && forall i :: 0 <= i < |slots| && old(avail[i]) == 0 ==> slots[result].time <= slots[i].time
  {
    result := -1;
    var min := 0;
    for i := 0 to |slots|
      invariant result == -1 ==> forall j :: 0 <= j < i ==> avail[j] != 0
      invariant result != -1 ==>
                  && 0 <= result < i && avail[result] == 0 && min == slots[result].time
                  && forall j :: 0 <= j < i && avail[j] == 0 ==> slots[result].time <= slots[j].time
    {
      if (result == -1 || slots[i].time < min) && avail[i] == 0 {
        min := slots[i].time;
        result := i;
      }
    }
    if result != -1 {
      avail[result] := 1;
    }
  }

  /** Times of slots: -1 out of service, otherwise not negative. */
  ghost predicate SlotTimes(slots: seq<Slot>) {
    forall i :: 0 <= i < |slots| ==> slots[i].time >= -1
  }

  /** Slots of nodes that are down have no times; other slots may have none, either. */
  ghost predicate DownBlank(slots: seq<Slot>, down: set<int>) {
    forall i :: 0 <= i < |slots| && slots[i].node in down ==> slots[i].time == -1
  }

  /** The slots in service of a cluster in which exactly the nodes that are down have no times. */
  ghost predicate InService(slots: seq<Slot>, down: set<int>) {
    forall i :: 0 <= i < |slots| ==> if slots[i].node in down then slots[i].time == -1 else slots[i].time >= 0
  }

  /** The slots without times whose nodes are not down, either: reserved, busy or unknown ones. */
  function BlankCount(slots: seq<Slot>, down: set<int>, m: Measure): nat {
    if slots == [] then 0
    else
      var s := slots[|slots| - 1];
      BlankCount(slots[..|slots| - 1], down, m) + if s.time < 0 && s.node !in down && Counts(s, m) then 1 else 0
  }

  /** What the last gaps count: all slots of nodes that are not down, unless they become idle later. */
  function CountedBy(slots: seq<Slot>, down: set<int>, t: int, m: Measure): nat {
    if slots == [] then 0
    else
      var s := slots[|slots| - 1];
      CountedBy(slots[..|slots| - 1], down, t, m) + if s.time <= t && s.node !in down && Counts(s, m) then 1 else 0
  }

  /** These are the idle slots in service, and the blank ones besides. */
  lemma {:induction false} CountedIsFreeAndBlank(slots: seq<Slot>, down: set<int>, t: int, m: Measure)
    requires DownBlank(slots, down) && t >= 0
    ensures CountedBy(slots, down, t, m) == FreeBy(slots, t, m) + BlankCount(slots, down, m)
  {
    if slots != [] {
      CountedIsFreeAndBlank(slots[..|slots| - 1], down, t, m);
    }
  }

  /** Counts the slots of nodes that are not down and idle before the end of the gap. */
  method GapMemoryCreateLast(gap: Item<Gap>, slots: seq<Slot>, down: set<int>)
    modifies gap`value
    ensures gap.value == old(gap.value).(usage := gap.value.usage, nodes := gap.value.nodes)
    ensures gap.value.usage == TotalCpus(gap.value.nodes)
    ensures forall m :: Amount(gap.value, m) == CountedBy(slots, down, gap.value.endTime - 1, m)
  {
    var g := gap.value;
    var usage := 0;
    var nodes: seq<NodeCpus> := [];
    for i := 0 to |slots|
      invariant usage == TotalCpus(nodes) == CountedBy(slots[..i], down, g.endTime - 1, Usage)
      invariant forall n :: CpusOf(nodes, n) == CountedBy(slots[..i], down, g.endTime - 1, OnNode(n))
    {
      assert slots[..i + 1][..i] == slots[..i];
      if slots[i].time < g.endTime {
        if slots[i].node !in down {
          usage := usage + 1;
          nodes := CountNode(nodes, slots[i].node);
        }
      }
    }
    assert slots[..|slots|] == slots;
    gap.value := g.(usage := usage, nodes := nodes);
  }

  /** The table that the last gaps show: blank slots of nodes that are not down look idle from an instant on. */
  ghost function Shown(slots: seq<Slot>, down: set<int>, from: int): (r: seq<Slot>)
    ensures |r| == |slots|
    ensures forall i :: 0 <= i < |slots| ==>
              r[i] == if slots[i].time < 0 && slots[i].node !in down then slots[i].(time := from) else slots[i]
  {
    seq(|slots|, i requires 0 <= i < |slots| =>
      if slots[i].time < 0 && slots[i].node !in down then slots[i].(time := from) else slots[i])
  }

  lemma {:induction false} FreeOfShown(slots: seq<Slot>, down: set<int>, from: int, t: int, m: Measure)
    requires SlotTimes(slots)
    ensures FreeBy(Shown(slots, down, from), t, m) ==
            FreeBy(slots, t, m) + if 0 <= from <= t then BlankCount(slots, down, m) else 0
  {
    if slots != [] {
      var l := |slots| - 1;
      FreeOfShown(slots[..l], down, from, t, m);
      assert Shown(slots, down, from)[..l] == Shown(slots[..l], down, from);
    }
  }

  /** The earliest time of a slot in service, -1 when there is none. */
  function Earliest(slots: seq<Slot>): int {
    if slots == [] then -1
    else
      var e, t := Earliest(slots[..|slots| - 1]), slots[|slots| - 1].time;
      if t >= 0 && (e == -1 || t < e) then t else e
  }

  lemma {:induction false} EarliestIs(slots: seq<Slot>, t: int)
    requires SlotTimes(slots) && forall i :: 0 <= i < |slots| ==> slots[i].time == -1 || t <= slots[i].time
    requires t >= 0
    ensures Earliest(slots) == -1 || Earliest(slots) >= t
    ensures (exists i :: 0 <= i < |slots| && slots[i].time == t) ==> Earliest(slots) == t
    ensures Earliest(slots) == -1 <==> forall i :: 0 <= i < |slots| ==> slots[i].time == -1
  {
    if slots != [] {
      var l := |slots| - 1;
      EarliestIs(slots[..l], t);
      assert slots == slots[..l] + [slots[l]];
    }
  }

  /** The marks separate the slots idle by an instant from those idle from then on. */
  ghost predicate Swept(slots: seq<Slot>, marks: seq<int>, t: int) {
    && |marks| == |slots|
    && forall i :: 0 <= i < |slots| ==>
         && (marks[i] == 0 || marks[i] == 1)
         && (marks[i] == 0 ==> slots[i].time >= 0 && slots[i].time >= t)
         && (marks[i] == 1 ==> slots[i].time <= t)
  }

  lemma {:induction false} SweptStep(slots: seq<Slot>, marks: seq<int>, t: int, p: nat)
    requires Swept(slots, marks, t) && p < |slots| && marks[p] == 0
    requires forall i :: 0 <= i < |slots| && marks[i] == 0 ==> slots[p].time <= slots[i].time
    ensures Swept(slots, marks[p := 1], slots[p].time) && t <= slots[p].time
    ensures forall i :: 0 <= i < |slots| ==> !(t < slots[i].time < slots[p].time)
    ensures Fresh(marks[p := 1]) == Fresh(marks) - 1
  {
    CountsUpdate(marks, p, 1, 0);
  }

  lemma {:induction false} NoneFresh(marks: seq<int>)
    requires Fresh(marks) == 0
    ensures forall i :: 0 <= i < |marks| ==> marks[i] != 0
  {
    if marks != [] {
      NoneFresh(marks[..|marks| - 1]);
    }
  }

  lemma {:induction false} FreshAtMost(marks: seq<int>)
    ensures Fresh(marks) <= |marks|
  {
    if marks != [] {
      FreshAtMost(marks[..|marks| - 1]);
    }
  }

  lemma {:induction false} LatestIs(slots: seq<Slot>, t: int)
    requires forall i :: 0 <= i < |slots| ==> slots[i].time <= t
    requires t == -1 || exists i :: 0 <= i < |slots| && slots[i].time == t
    requires t >= -1
    ensures Latest(slots) == t
  {
    if slots != [] {
      var l := |slots| - 1;
      if t == -1 || exists i :: 0 <= i < l && slots[i].time == t {
        LatestIs(slots[..l], t);
      } else {
        LatestBelow(slots[..l], t);
      }
    }
  }

  lemma {:induction false} LatestBelow(slots: seq<Slot>, t: int)
    requires t >= 0 && forall i :: 0 <= i < |slots| ==> slots[i].time < t
    ensures Latest(slots) < t
  {
    if slots != [] {
      LatestBelow(slots[..|slots| - 1], t);
    }
  }

  function Min(a: int, b: int): int {
    if a < b then a else b
  }

  /** Adds the gap between two times at which slots become idle, cut at the bound. */
  method ExtendGaps(gaps: PlanList<Gap>, slots: seq<Slot>, down: set<int>, gapStart: int, slotTime: int, maxCompletionTime: int,
                    ghost from: int)
    requires gaps.Valid() && SlotTimes(slots) && DownBlank(slots, down) && 0 <= from <= gapStart < slotTime
    requires forall i :: 0 <= i < |slots| ==> !(gapStart < slots[i].time < slotTime)
    requires Emitted(gaps.Values(), Shown(slots, down, from), Min(gapStart, maxCompletionTime))
    modifies gaps, gaps.items`successor, gaps.items`predecessor
    ensures gaps.Valid()
    ensures forall i :: 0 <= i < |gaps.items| ==> gaps.items[i] in old(gaps.items) || fresh(gaps.items[i])
    ensures Emitted(gaps.Values(), Shown(slots, down, from), Min(slotTime, maxCompletionTime))
  {
    hide Emitted, SlotTimes, DownBlank;
    var gapEnd := slotTime;
    if gapEnd > maxCompletionTime {
      gapEnd := maxCompletionTime;
    }
    if gapEnd > gapStart {
      var newGap := new Item(Gap(gapStart, gapEnd, gapEnd - gapStart, 0, []));
      GapMemoryCreateLast(newGap, slots, down);
      GapShows(newGap.value, slots, down, from);
      EmittedMore(gaps.Values(), Shown(slots, down, from), newGap.value);
      PutLast(gaps, newGap);
    }
  }

  /** What a last gap counts is what the table shows as idle before its end. */
  lemma {:induction false} GapShows(g: Gap, slots: seq<Slot>, down: set<int>, from: int)
    requires SlotTimes(slots) && DownBlank(slots, down) && 0 <= from <= g.endTime - 1
    requires forall m :: Amount(g, m) == CountedBy(slots, down, g.endTime - 1, m)
    ensures forall m :: Amount(g, m) == FreeBy(Shown(slots, down, from), g.endTime - 1, m)
  {
    forall m
      ensures Amount(g, m) == FreeBy(Shown(slots, down, from), g.endTime - 1, m)
    {
      CountedIsFreeAndBlank(slots, down, g.endTime - 1, m);
      FreeOfShown(slots, down, from, g.endTime - 1, m);
    }
  }

  /**
   The gaps behind the planned jobs: up to the latest slot, or up to the bound
   when that comes first, they show how many slots in service are idle. From the
   first of them on, blank slots of nodes that are not down are shown as idle, too.
   */
  method GapCreateNotTheLast(slots: seq<Slot>, down: set<int>, maxCompletionTime: int) returns (gaps: PlanList<Gap>)
    requires SlotTimes(slots) && DownBlank(slots, down)
    ensures fresh(gaps) && gaps.Valid() && forall i :: 0 <= i < |gaps.items| ==> fresh(gaps.items[i])
    ensures Emitted(gaps.Values(), Shown(slots, down, Earliest(slots)), Min(Latest(slots), maxCompletionTime))
  {
    hide Emitted, Swept, Fresh, SlotTimes, DownBlank, Latest, Earliest;
    var avail := InitAvailable(slots);
    gaps := new PlanList<Gap>();
    assert gaps.Values() == [];
    var gapStart := -1;
    ghost var from := -1;
    for i := 0 to |slots|
      invariant avail.Length == |slots| && (gapStart == -1 || 0 <= from <= gapStart)
      invariant Swept(slots, avail[..], gapStart) && Fresh(avail[..]) <= |slots| - i
      invariant gapStart == -1 || exists j :: 0 <= j < |slots| && slots[j].time == gapStart
      invariant gapStart == -1 || Earliest(slots) == from
      invariant fresh(gaps) && gaps.Valid() && forall j :: 0 <= j < |gaps.items| ==> fresh(gaps.items[j])
      invariant fresh(avail)
      invariant if gapStart == -1 then gaps.items == [] && gaps.Values() == []
                else Emitted(gaps.Values(), Shown(slots, down, from), Min(gapStart, maxCompletionTime))
    {
      ghost var marks := avail[..];
      var cpuIndex := GapsIthSmallest(slots, avail);
      if cpuIndex == -1 {
        NoneLeft(slots, marks, gapStart);
        continue;
      }
      SweptStep(slots, marks, gapStart, cpuIndex);
      SweptPick(slots, marks, gapStart, cpuIndex);
      if gapStart == -1 {
        gapStart := slots[cpuIndex].time;
        from := gapStart;
        EarliestIs(slots, from);
        EmittedNothing(Shown(slots, down, from), Min(gapStart, maxCompletionTime));
      }
      if gapStart != slots[cpuIndex].time {
        ExtendGaps(gaps, slots, down, gapStart, slots[cpuIndex].time, maxCompletionTime, from);
        gapStart := slots[cpuIndex].time;
      }
    }
    SweptAll(slots, avail[..], gapStart);
    if gapStart == -1 {
      EarliestIs(slots, 0);
      EmittedNothing(Shown(slots, down, -1), Min(-1, maxCompletionTime));
    }
  }

  /** Everything in service may be picked. */
  method InitAvailable(slots: seq<Slot>) returns (avail: array<int>)
    requires SlotTimes(slots)
    ensures fresh(avail) && avail.Length == |slots| && Swept(slots, avail[..], -1) && Fresh(avail[..]) <= |slots|
  {
    avail := new int[|slots|](_ => 0);
    for i := 0 to |slots|
      invariant forall j :: 0 <= j < i ==> avail[j] == if slots[j].time == -1 then 1 else 0
    {
      avail[i] := if slots[i].time == -1 then 1 else 0;
    }
    FreshAtMost(avail[..]);
  }

  lemma {:induction false} SweptPick(slots: seq<Slot>, marks: seq<int>, t: int, p: nat)
    requires Swept(slots, marks, t) && SlotTimes(slots) && p < |slots| && marks[p] == 0
    requires forall i :: 0 <= i < |slots| && marks[i] == 0 ==> slots[p].time <= slots[i].time
    ensures slots[p].time >= 0
    ensures t == -1 ==> forall i :: 0 <= i < |slots| ==> slots[i].time == -1 || slots[p].time <= slots[i].time
  {
  }

  lemma {:induction false} NoneLeft(slots: seq<Slot>, marks: seq<int>, t: int)
    requires Swept(slots, marks, t) && forall i :: 0 <= i < |slots| ==> marks[i] != 0
    ensures Fresh(marks) == 0
  {
    NoFresh(marks);
  }

  lemma {:induction false} NoFresh(marks: seq<int>)
    requires forall i :: 0 <= i < |marks| ==> !IsFresh(marks[i])
    ensures Fresh(marks) == 0
  {
    if marks != [] {
      NoFresh(marks[..|marks| - 1]);
    }
  }

  lemma {:induction false} SweptAll(slots: seq<Slot>, marks: seq<int>, t: int)
    requires Swept(slots, marks, t) && SlotTimes(slots) && Fresh(marks) == 0 && t >= -1
    requires t == -1 || exists j :: 0 <= j < |slots| && slots[j].time == t
    ensures Latest(slots) == t
    ensures t == -1 ==> forall i :: 0 <= i < |slots| ==> slots[i].time == -1
  {
    NoneFresh(marks);
    LatestIs(slots, t);
  }
}
