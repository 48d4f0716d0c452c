/**
 What the selection of slots keeps from pick to pick, for any number of nodes
 (update_job in plan_operations.cpp), and the selection itself.
 */
module SlotRuns {
  import opened PlanLists
  import opened PlanJobs
  import opened SlotSelection

  // ----- states and steps of the loop

  /**
   The loop state as a value: the marks, the recorded indexes, the cursor, the start,
   the completed nodes with the latest slot of each; and, for the proofs, the slot
   picked last of those never picked before, the picks of the node being filled, the
   slots that the completed nodes have given, and all slots ever picked.
   */
  datatype View = View(marks: seq<int>, cpus: seq<int>, cur: Cursor, start: int, nodes: seq<Option<int>>,
                       latest: seq<int>, f: int, tmp: seq<int>, takes: seq<set<int>>, ever: set<int>)

  function Begin(init: seq<int>): View {
    View(init, [], Cursor(None, 1, -1, -1), -1, [], [], -1, [], [], {})
  }

  /** What stays recorded when slot p is picked: turning to another node cuts off all behind the completed nodes. */
  function Kept(slots: seq<Slot>, ppn: nat, v: View, p: nat): seq<int>
    requires p < |slots| && Base(|v.nodes|, ppn) <= |v.cpus|
  {
    if NextAttempt(slots, v.cur, p) == v.cur.attempt then v.cpus else v.cpus[..Base(|v.nodes|, ppn)]
  }

  function NextPicks(slots: seq<Slot>, v: View, p: nat): seq<int>
    requires p < |slots|
  {
    (if NextAttempt(slots, v.cur, p) == v.cur.attempt then v.tmp else []) + [p]
  }

  /** Slot p is picked, and recorded at one position. */
  ghost predicate PickStep(slots: seq<Slot>, init: seq<int>, ppn: nat, v: View, p: nat, at: nat) {
    && |v.marks| == |slots| == |init| && v.cur.Valid(|slots|) && p < |slots|
    && FirstCandidate(slots, v.marks, v.cur, p)
    && Base(|v.nodes|, ppn) <= |v.cpus| && Indexes(slots, Kept(slots, ppn, v, p))
    && at <= |Kept(slots, ppn, v, p)| && InPlace(slots, Kept(slots, ppn, v, p), at, p)
  }

  function AfterPick(slots: seq<Slot>, ppn: nat, v: View, p: nat, at: nat): View
    requires |v.marks| == |slots| && v.cur.Valid(|slots|) && p < |slots| && Base(|v.nodes|, ppn) <= |v.cpus|
    requires at <= |Kept(slots, ppn, v, p)|
  {
    v.(marks := v.marks[p := NextAttempt(slots, v.cur, p)],
       cpus := Insert(Kept(slots, ppn, v, p), at, p),
       cur := MovedTo(slots, v.cur, p),
       f := if v.marks[p] == 0 then p else v.f,
       tmp := NextPicks(slots, v, p),
       ever := v.ever + {p})
  }

  /** A node is complete: its slots are given, and the next node is looked for. */
  ghost function AfterCommit(slots: seq<Slot>, v: View, marks: seq<int>): View
    requires v.cpus != [] && 0 <= v.cpus[|v.cpus| - 1] < |slots|
  {
    v.(marks := marks,
       cur := v.cur.(considered := None, nodeLatest := -1),
       start := slots[v.cpus[|v.cpus| - 1]].time,
       nodes := v.nodes + [v.cur.considered],
       latest := v.latest + [v.cur.nodeLatest],
       tmp := [],
       takes := v.takes + [Elements(v.tmp)])
  }

  /** The places that are left on the nodes a job is fixed to. */
  ghost function PlacesLeft(fixedNames: seq<Option<int>>, nodes: seq<Option<int>>): multiset<Option<int>> {
    multiset(fixedNames) - multiset(nodes)
  }

  /** The node takes its last place with this one. */
  ghost predicate UsedUp(fixedNames: seq<Option<int>>, nodes: seq<Option<int>>, node: int) {
    None !in fixedNames && Some(node) !in PlacesLeft(fixedNames, nodes + [Some(node)])
  }

  /** One turn of the loop. */
  ghost predicate StepBy(slots: seq<Slot>, init: seq<int>, ppn: nat, fixedNames: seq<Option<int>>, v: View, p: nat, at: nat, w: View) {
    && |v.nodes| < |fixedNames| && PickStep(slots, init, ppn, v, p, at)
    && var u := AfterPick(slots, ppn, v, p, at);
       if |u.tmp| < ppn then w == u
       else
         && |u.tmp| == ppn && 0 <= u.cpus[|u.cpus| - 1] < |slots|
         && Commits(slots, u.marks, u.tmp, slots[p].node, UsedUp(fixedNames, v.nodes, slots[p].node), w.marks)
         && w == AfterCommit(slots, u, w.marks)
  }

  ghost predicate LoopStep(slots: seq<Slot>, init: seq<int>, ppn: nat, fixedNames: seq<Option<int>>, v: View, w: View) {
    exists p: nat, at: nat :: StepBy(slots, init, ppn, fixedNames, v, p, at, w)
  }

  /** A run of the loop from its beginning, for a job with as many places as there are names. */
  ghost predicate LoopRun(slots: seq<Slot>, init: seq<int>, ppn: nat, fixedNames: seq<Option<int>>, run: seq<View>) {
    && |init| == |slots| && run != [] && run[0] == Begin(init)
    && forall i :: 0 <= i < |run| - 1 ==> LoopStep(slots, init, ppn, fixedNames, run[i], run[i + 1])
  }

  // ----- slots given by completed nodes

  ghost function AllGiven(takes: seq<set<int>>): set<int> {
    if takes == [] then {} else AllGiven(takes[..|takes| - 1]) + takes[|takes| - 1]
  }

  /** No slot of the set is later than this one, which belongs to it. */
  ghost predicate LatestOf(slots: seq<Slot>, l: int, s: set<int>) {
    l in s && forall x :: x in s ==> 0 <= x < |slots| && 0 <= l < |slots| && slots[x].time <= slots[l].time
  }

  /** Slots of one node, none of them out of the question. */
  ghost predicate GivenBy(slots: seq<Slot>, init: seq<int>, node: Option<int>, take: set<int>)
    requires |init| == |slots|
  {
    forall x :: x in take ==> 0 <= x < |slots| && IsFresh(init[x]) && node == Some(slots[x].node)
  }

  /** Every node has given ppn slots of its own, no slot is given twice, and the latest one of each node is known. */
  ghost predicate Given(slots: seq<Slot>, init: seq<int>, ppn: nat, nodes: seq<Option<int>>, latest: seq<int>, takes: seq<set<int>>)
    requires |init| == |slots|
  {
    && |takes| == |nodes| == |latest|
    && (forall k :: 0 <= k < |takes| ==>
          |takes[k]| == ppn && nodes[k].Some? && GivenBy(slots, init, nodes[k], takes[k]) && LatestOf(slots, latest[k], takes[k]))
    && (forall k, l :: 0 <= k < l < |takes| ==> takes[k] !! takes[l])
  }

  lemma {:induction false} InGiven(takes: seq<set<int>>, x: int) returns (k: nat)
    requires x in AllGiven(takes)
    ensures k < |takes| && x in takes[k]
  {
    var l := |takes| - 1;
    if x in takes[l] {
      k := l;
    } else {
      k := InGiven(takes[..l], x);
    }
  }

  lemma {:induction false} GivenIn(takes: seq<set<int>>, k: nat, x: int)
    requires k < |takes| && x in takes[k]
    ensures x in AllGiven(takes)
  {
    var l := |takes| - 1;
    if k < l {
      GivenIn(takes[..l], k, x);
    }
  }

  lemma {:induction false} GivenPrefix(slots: seq<Slot>, init: seq<int>, ppn: nat, nodes: seq<Option<int>>, latest: seq<int>, takes: seq<set<int>>)
    requires |init| == |slots| && Given(slots, init, ppn, nodes, latest, takes) && takes != []
    ensures var l := |takes| - 1; Given(slots, init, ppn, nodes[..l], latest[..l], takes[..l]) && AllGiven(takes[..l]) !! takes[l]
  {
    var l := |takes| - 1;
    forall x | x in AllGiven(takes[..l])
      ensures x !in takes[l]
    {
      var k := InGiven(takes[..l], x);
    }
  }

  /** The given slots that belong to a node. */
  ghost function GivenOn(slots: seq<Slot>, takes: seq<set<int>>, node: int): set<int> {
    set x | x in AllGiven(takes) && 0 <= x < |slots| && slots[x].node == node
  }

  lemma {:induction false} DisjointCard(a: set<int>, b: set<int>)
    requires a !! b
    ensures |a + b| == |a| + |b|
  {
  }

  /** What the last node adds. */
  lemma {:induction false} GivenLast(slots: seq<Slot>, init: seq<int>, ppn: nat, nodes: seq<Option<int>>, latest: seq<int>, takes: seq<set<int>>, node: int)
    requires |init| == |slots| && Given(slots, init, ppn, nodes, latest, takes) && takes != []
    ensures var l := |takes| - 1;
            && |AllGiven(takes)| == |AllGiven(takes[..l])| + ppn
            && |GivenOn(slots, takes, node)| == |GivenOn(slots, takes[..l], node)| + if nodes[l] == Some(node) then ppn else 0
  {
    var l := |takes| - 1;
    GivenPrefix(slots, init, ppn, nodes, latest, takes);
    DisjointCard(AllGiven(takes[..l]), takes[l]);
    assert GivenBy(slots, init, nodes[l], takes[l]);
    if nodes[l] == Some(node) {
      assert GivenOn(slots, takes, node) == GivenOn(slots, takes[..l], node) + takes[l];
      DisjointCard(GivenOn(slots, takes[..l], node), takes[l]);
    } else {
      assert GivenOn(slots, takes, node) == GivenOn(slots, takes[..l], node);
    }
  }

  lemma {:induction false} CountNext(nodes: seq<Option<int>>, node: Option<int>)
    requires nodes != []
    ensures var l := |nodes| - 1; multiset(nodes)[node] == multiset(nodes[..l])[node] + if nodes[l] == node then 1 else 0
  {
    var l := |nodes| - 1;
    assert nodes == nodes[..l] + [nodes[l]];
  }

  lemma {:induction false} GivenCounts(slots: seq<Slot>, init: seq<int>, ppn: nat, nodes: seq<Option<int>>, latest: seq<int>, takes: seq<set<int>>, node: int)
    requires |init| == |slots| && Given(slots, init, ppn, nodes, latest, takes)
    ensures |AllGiven(takes)| == Base(|nodes|, ppn) && |takes| == |nodes| == |latest|
    ensures |GivenOn(slots, takes, node)| == Base(multiset(nodes)[Some(node)], ppn)
  {
    if takes == [] {
      assert GivenOn(slots, takes, node) == {};
    } else {
      var l := |takes| - 1;
      GivenPrefix(slots, init, ppn, nodes, latest, takes);
      GivenCounts(slots, init, ppn, nodes[..l], latest[..l], takes[..l], node);
      GivenLast(slots, init, ppn, nodes, latest, takes, node);
      hide Base, Given, AllGiven, GivenOn;
      NextBase(l, ppn);
      NextBase(multiset(nodes[..l])[Some(node)], ppn);
      CountNext(nodes, Some(node));
    }
  }

  lemma {:induction false} GivenMeans(slots: seq<Slot>, init: seq<int>, ppn: nat, nodes: seq<Option<int>>, latest: seq<int>, takes: seq<set<int>>)
    requires |init| == |slots| && Given(slots, init, ppn, nodes, latest, takes)
    ensures forall x :: x in AllGiven(takes) ==> 0 <= x < |slots| && IsFresh(init[x])
  {
    forall x | x in AllGiven(takes)
      ensures 0 <= x < |slots| && IsFresh(init[x])
    {
      var k := InGiven(takes, x);
      assert GivenBy(slots, init, nodes[k], takes[k]);
    }
  }

  // ----- the node being filled

  /** The slots that the current attempt has marked. */
  ghost function Current(marks: seq<int>, attempt: int): set<int> {
    set i | 0 <= i < |marks| && marks[i] == attempt
  }

  ghost predicate MarkedTaken(marks: seq<int>, take: set<int>) {
    forall x :: x in take ==> 0 <= x < |marks| && marks[x] == TAKEN
  }

  /** The picks of the current attempt are those of the node being filled; what was given before is marked. */
  ghost predicate Filling(slots: seq<Slot>, init: seq<int>, ppn: nat, v: View) {
    && |v.marks| == |slots| == |init| && v.cur.Valid(|slots|) && v.cur.attempt >= 1
    && Given(slots, init, ppn, v.nodes, v.latest, v.takes) && MarkedTaken(v.marks, AllGiven(v.takes))
    && (forall x :: 0 <= x < |slots| ==> v.marks[x] <= v.cur.attempt)
    && Distinct(v.tmp) && Elements(v.tmp) == Current(v.marks, v.cur.attempt)
    && (forall x :: x in v.tmp ==> 0 <= x < |slots| && v.cur.considered == Some(slots[x].node))
    && (v.cur.considered.Some? ==> LatestOf(slots, v.cur.nodeLatest, Elements(v.tmp)))
    && (v.cur.considered == None ==> v.tmp == [] && v.cur.nodeLatest == -1)
  }

  lemma {:induction false} PickedNow(slots: seq<Slot>, init: seq<int>, ppn: nat, v: View)
    requires Filling(slots, init, ppn, v)
    ensures forall x :: 0 <= x < |slots| ==> (x in v.tmp <==> v.marks[x] == v.cur.attempt)
    ensures forall x :: x in v.tmp <==> x in Elements(v.tmp)
  {
    forall x | 0 <= x < |slots|
      ensures x in v.tmp <==> v.marks[x] == v.cur.attempt
    {
      assert x in Elements(v.tmp) <==> x in Current(v.marks, v.cur.attempt);
    }
  }

  lemma {:induction false} DistinctAppend(s: seq<int>, x: int)
    requires Distinct(s) && x !in s
    ensures Distinct(s + [x])
  {
  }

  /** A pick that turns to another node was never picked before and depends on no exception. */
  lemma {:induction false} SwitchIsFresh(slots: seq<Slot>, init: seq<int>, ppn: nat, v: View, p: nat)
    requires Filling(slots, init, ppn, v) && p < |slots| && FirstCandidate(slots, v.marks, v.cur, p)
    requires NextAttempt(slots, v.cur, p) != v.cur.attempt
    ensures v.marks[p] == 0
  {
    assert v.cur.nodeLatest in Elements(v.tmp);
    PickedNow(slots, init, ppn, v);
  }

  lemma {:induction false} FillingPick(slots: seq<Slot>, init: seq<int>, ppn: nat, v: View, p: nat, at: nat)
    requires Filling(slots, init, ppn, v) && PickStep(slots, init, ppn, v, p, at)
    requires Ranked(slots, v)
    ensures Filling(slots, init, ppn, AfterPick(slots, ppn, v, p, at))
  {
    hide Given, AllGiven, Base;
    var w := AfterPick(slots, ppn, v, p, at);
    PickedNow(slots, init, ppn, v);
    assert v.marks[p] != TAKEN && v.marks[p] != v.cur.attempt;
    assert p !in AllGiven(v.takes);
    assert forall x :: x in w.tmp <==> x == p || (w.cur.attempt == v.cur.attempt && x in v.tmp);
    DistinctAppend(if w.cur.attempt == v.cur.attempt then v.tmp else [], p);
    assert Elements(w.tmp) == Current(w.marks, w.cur.attempt);
    if w.cur.attempt != v.cur.attempt {
      SwitchIsFresh(slots, init, ppn, v, p);
      assert v.cur.nodeLatest in Elements(v.tmp);
      assert v.cur.nodeLatest in v.ever;
    }
  }

  /** Whatever is picked precedes all slots that are still free to be picked; the record ends no earlier than what is held. */
  ghost predicate Ranked(slots: seq<Slot>, v: View) {
    && |v.marks| == |slots|
    && (forall x :: x in v.ever ==> 0 <= x < |slots|)
    && (forall x, z :: x in v.ever && 0 <= z < |slots| && v.marks[z] == 0 ==> Precedes(slots, x, z))
    && (forall x :: 0 <= x < |slots| && v.marks[x] > 0 ==> x in v.ever)
    && (forall x :: x in v.tmp || x in v.cpus || x in AllGiven(v.takes) ==> x in v.ever)
    && (forall x :: x in v.tmp || x in AllGiven(v.takes) ==> EndsBehind(slots, v.cpus, x))
  }

  /** The last recorded slot is no earlier than this one. */
  ghost predicate EndsBehind(slots: seq<Slot>, cpus: seq<int>, x: int) {
    cpus != [] && 0 <= cpus[|cpus| - 1] < |slots| && 0 <= x < |slots| && slots[x].time <= slots[cpus[|cpus| - 1]].time
  }

  lemma {:induction false} RankedPick(slots: seq<Slot>, init: seq<int>, ppn: nat, v: View, p: nat, at: nat)
    requires Filling(slots, init, ppn, v) && Ranked(slots, v) && PickStep(slots, init, ppn, v, p, at)
    requires Indexes(slots, v.cpus) && SortedByTime(slots, v.cpus)
    ensures Ranked(slots, AfterPick(slots, ppn, v, p, at))
  {
    hide AllGiven, Given, Base, EndsBehind, InPlace, Filling, SortedByTime;
    FillingNumbers(slots, init, ppn, v);
    var kept := Kept(slots, ppn, v, p);
    var w := AfterPick(slots, ppn, v, p, at);
    InsertedFrom(kept, at, p);
    forall x | x in w.tmp || x in AllGiven(w.takes)
      ensures EndsBehind(slots, w.cpus, x)
    {
      EndAfterPick(slots, init, ppn, v, p, at, x);
    }
  }

  lemma {:induction false} InsertedFrom(s: seq<int>, at: nat, p: int)
    requires at <= |s|
    ensures forall x :: x in Insert(s, at, p) ==> x == p || x in s
  {
  }

  lemma {:induction false} EndAfterPick(slots: seq<Slot>, init: seq<int>, ppn: nat, v: View, p: nat, at: nat, x: int)
    requires Filling(slots, init, ppn, v) && Ranked(slots, v) && PickStep(slots, init, ppn, v, p, at)
    requires Indexes(slots, v.cpus) && SortedByTime(slots, v.cpus)
    requires x in NextPicks(slots, v, p) || x in AllGiven(v.takes)
    ensures EndsBehind(slots, AfterPick(slots, ppn, v, p, at).cpus, x)
  {
    hide AllGiven, Given, Base, EndsBehind;
    if x != p && NextAttempt(slots, v.cur, p) != v.cur.attempt {
      SwitchIsFresh(slots, init, ppn, v, p);
      assert Precedes(slots, x, p);
    }
    EndsStillBehind(slots, v.cpus, Kept(slots, ppn, v, p), p, at, x);
  }

  lemma {:induction false} EndsStillBehind(slots: seq<Slot>, cpus: seq<int>, kept: seq<int>, p: nat, at: nat, x: int)
    requires Indexes(slots, kept) && InPlace(slots, kept, at, p) && SortedByTime(slots, kept)
    requires (x in {p}) || (kept == cpus && EndsBehind(slots, cpus, x)) || (0 <= x < |slots| && slots[x].time <= slots[p].time)
    ensures EndsBehind(slots, Insert(kept, at, p), x)
  {
    var r := Insert(kept, at, p);
    assert r[|r| - 1] == if at == |kept| then p else kept[|kept| - 1];
    assert at < |kept| ==> slots[kept[at]].time <= slots[kept[|kept| - 1]].time;
  }

  // ----- completing a node

  lemma {:induction false} GivenAppend(slots: seq<Slot>, init: seq<int>, ppn: nat, nodes: seq<Option<int>>, latest: seq<int>, takes: seq<set<int>>,
                                       node: Option<int>, l: int, take: set<int>)
    requires |init| == |slots| && Given(slots, init, ppn, nodes, latest, takes)
    requires |take| == ppn && node.Some? && GivenBy(slots, init, node, take) && LatestOf(slots, l, take) && AllGiven(takes) !! take
    ensures Given(slots, init, ppn, nodes + [node], latest + [l], takes + [take])
    ensures AllGiven(takes + [take]) == AllGiven(takes) + take
  {
    var ws := takes + [take];
    assert ws[..|takes|] == takes;
    forall k, m | 0 <= k < m < |ws|
      ensures ws[k] !! ws[m]
    {
      if m == |takes| {
        forall x | x in takes[k]
          ensures x !in take
        {
          GivenIn(takes, k, x);
        }
      }
    }
  }

  lemma {:induction false} FillingCommit(slots: seq<Slot>, init: seq<int>, ppn: nat, v: View, usedUp: bool, marks': seq<int>)
    requires Filling(slots, init, ppn, v) && MarksOf(init, v.marks) && InitialMarks(init)
    requires |v.tmp| == ppn && v.cur.considered.Some?
    requires Commits(slots, v.marks, v.tmp, v.cur.considered.value, usedUp, marks')
    requires v.cpus != [] && 0 <= v.cpus[|v.cpus| - 1] < |slots|
    ensures Filling(slots, init, ppn, AfterCommit(slots, v, marks'))
    ensures AllGiven(AfterCommit(slots, v, marks').takes) == AllGiven(v.takes) + Elements(v.tmp)
  {
    hide Given, AllGiven;
    CardOfDistinct(v.tmp);
    PickedNow(slots, init, ppn, v);
    assert GivenBy(slots, init, v.cur.considered, Elements(v.tmp));
    assert AllGiven(v.takes) !! Elements(v.tmp);
    GivenAppend(slots, init, ppn, v.nodes, v.latest, v.takes, v.cur.considered, v.cur.nodeLatest, Elements(v.tmp));
    assert Current(marks', v.cur.attempt) == {} == Elements([]);
  }

  lemma {:induction false} RankedCommit(slots: seq<Slot>, init: seq<int>, ppn: nat, v: View, usedUp: bool, marks': seq<int>)
    requires Filling(slots, init, ppn, v) && Ranked(slots, v) && v.cur.considered.Some?
    requires Commits(slots, v.marks, v.tmp, v.cur.considered.value, usedUp, marks')
    requires v.cpus != [] && 0 <= v.cpus[|v.cpus| - 1] < |slots|
    requires AllGiven(AfterCommit(slots, v, marks').takes) == AllGiven(v.takes) + Elements(v.tmp)
    ensures Ranked(slots, AfterCommit(slots, v, marks'))
  {
    hide AllGiven, Given, EndsBehind;
    PickedNow(slots, init, ppn, v);
  }

  // ----- nodes that a job is fixed to

  /** Slots of this node may still be picked, as far as places are concerned. */
  ghost predicate Open(fixedNames: seq<Option<int>>, nodes: seq<Option<int>>, node: int) {
    None in fixedNames || Some(node) in PlacesLeft(fixedNames, nodes)
  }

  /**
   Nodes that have given slots took their places, and only nodes with places left
   can give more; slots are withdrawn only from nodes without places. A job that is
   not fixed loses no slots.
   */
  ghost predicate Honoured(slots: seq<Slot>, init: seq<int>, marks: seq<int>, fixedNames: seq<Option<int>>, nodes: seq<Option<int>>) {
    && |marks| == |slots| == |init|
    && (forall x :: 0 <= x < |slots| && IsFresh(init[x]) && marks[x] == PROHIBITED ==>
          !Open(fixedNames, nodes, slots[x].node))
    && (None !in fixedNames ==> multiset(nodes) <= multiset(fixedNames) && Confined(slots, marks, PlacesLeft(fixedNames, nodes)))
  }

  lemma {:induction false} HonouredBegins(slots: seq<Slot>, init: seq<int>, fixedNames: seq<Option<int>>)
    requires |init| == |slots| && InitialMarks(init) && (None !in fixedNames ==> Confined(slots, init, multiset(fixedNames)))
    ensures Honoured(slots, init, init, fixedNames, [])
  {
    assert PlacesLeft(fixedNames, []) == multiset(fixedNames);
  }

  lemma {:induction false} HonouredPick(slots: seq<Slot>, init: seq<int>, marks: seq<int>, fixedNames: seq<Option<int>>,
                                        nodes: seq<Option<int>>, cur: Cursor, p: int, attempt: int)
    requires Honoured(slots, init, marks, fixedNames, nodes) && cur.Valid(|slots|) && FirstCandidate(slots, marks, cur, p)
    requires attempt >= 1
    ensures Honoured(slots, init, marks[p := attempt], fixedNames, nodes)
    ensures Open(fixedNames, nodes, slots[p].node)
  {
    hide PlacesLeft;
  }

  /** The places left after a node has given slots. */
  lemma {:induction false} PlaceTaken(fixedNames: seq<Option<int>>, nodes: seq<Option<int>>, node: int)
    ensures PlacesLeft(fixedNames, nodes + [Some(node)]) == PlacesLeft(fixedNames, nodes) - multiset{Some(node)}
    ensures multiset(nodes + [Some(node)]) == multiset(nodes) + multiset{Some(node)}
  {
  }

  lemma {:induction false} HonouredCommit(slots: seq<Slot>, init: seq<int>, marks: seq<int>, fixedNames: seq<Option<int>>,
                                          nodes: seq<Option<int>>, tmp: seq<int>, node: int, marks': seq<int>)
    requires Honoured(slots, init, marks, fixedNames, nodes) && Open(fixedNames, nodes, node)
    requires Commits(slots, marks, tmp, node, UsedUp(fixedNames, nodes, node), marks')
    ensures Honoured(slots, init, marks', fixedNames, nodes + [Some(node)])
  {
    PlaceTaken(fixedNames, nodes, node);
    if None !in fixedNames {
      assert Some(node) in multiset(fixedNames) - multiset(nodes);
      forall x | 0 <= x < |slots| && (IsFresh(marks'[x]) || marks'[x] > 0)
        ensures Some(slots[x].node) in PlacesLeft(fixedNames, nodes + [Some(node)])
      {
        assert marks[x] == marks'[x];
        assert Some(slots[x].node) in PlacesLeft(fixedNames, nodes);
      }
    }
  }

  /** When as many nodes have given slots as there are places, each has its own place. */
  lemma {:induction false} HonouredEnds(slots: seq<Slot>, init: seq<int>, marks: seq<int>, fixedNames: seq<Option<int>>, nodes: seq<Option<int>>)
    requires Honoured(slots, init, marks, fixedNames, nodes) && |nodes| == |fixedNames|
    ensures None !in fixedNames ==> multiset(nodes) == multiset(fixedNames)
  {
    if None !in fixedNames {
      assert |multiset(nodes)| == |nodes| && |multiset(fixedNames)| == |fixedNames|;
      assert multiset(fixedNames) == multiset(nodes) + (multiset(fixedNames) - multiset(nodes));
      assert |multiset(fixedNames) - multiset(nodes)| == 0;
    }
  }

  // ----- the least start

  /** The slots of a node that are picked, but not given. */
  ghost function Picked(slots: seq<Slot>, marks: seq<int>, node: int): set<int>
    requires |marks| == |slots|
  {
    set i | 0 <= i < |slots| && marks[i] > 0 && slots[i].node == node
  }

  /**
   f is the slot picked last of those that depend on no exception. No slot ever
   picked is later, and those that depend on the exception are earlier. Apart from
   the picks of the current attempt no node has picks enough, and a node that the
   loop has left, and that has given nothing, has no slot below its later picks to spare.
   */
  ghost predicate Paced(slots: seq<Slot>, init: seq<int>, ppn: nat, v: View) {
    && |v.marks| == |slots| == |init| && v.cur.Valid(|slots|)
    && Frontmost(slots, init, v) && PickedOrGiven(slots, init, v)
    && (v.ever != {} ==> v.f in v.tmp || v.f in AllGiven(v.takes))
    && (v.nodes == [] ==> v.ever == {} || v.f in v.tmp)
    && (NoException(init) && v.cur.considered.Some? ==> v.f in v.tmp)
    && (forall node :: FewStale(slots, v, node, ppn))
    && forall node :: Some(node) !in v.nodes && v.cur.considered != Some(node) ==> NoneToSpare(slots, init, v, node)
  }

  ghost predicate Frontmost(slots: seq<Slot>, init: seq<int>, v: View)
    requires |init| == |slots|
  {
    && (v.ever != {} ==>
          && v.f in v.ever && 0 <= v.f < |slots| && init[v.f] == 0
          && 0 <= v.cur.totalLatest < |slots| && slots[v.cur.totalLatest].time == slots[v.f].time)
    && (v.ever == {} ==> v.cur.totalLatest == -1)
    && forall x :: x in v.ever ==>
         && 0 <= x < |slots| && 0 <= v.f < |slots| && IsFresh(init[x])
         && if init[x] == 0 then slots[x].time <= slots[v.f].time else slots[x].time < slots[v.f].time
  }

  ghost predicate PickedOrGiven(slots: seq<Slot>, init: seq<int>, v: View)
    requires |v.marks| == |slots| == |init|
  {
    && (forall x :: x in v.ever ==> 0 <= x < |slots| && (v.marks[x] > 0 || v.marks[x] == PROHIBITED || x in AllGiven(v.takes)))
    && forall x :: 0 <= x < |slots| && IsFresh(init[x]) ==>
         && (v.marks[x] == init[x] || v.marks[x] == PROHIBITED || x in v.ever)
         && (v.marks[x] == PROHIBITED ==> Some(slots[x].node) in v.nodes)
  }

  /** What earlier attempts have picked on a node is not enough. */
  ghost predicate FewStale(slots: seq<Slot>, v: View, node: int, ppn: nat)
    requires |v.marks| == |slots|
  {
    |Picked(slots, v.marks, node) - Elements(v.tmp)| < ppn
  }

  /** No slot of the node that is left over would fit below one that was picked there. */
  ghost predicate NoneToSpare(slots: seq<Slot>, init: seq<int>, v: View, node: int)
    requires |v.marks| == |slots| == |init|
  {
    forall i, j :: (0 <= i < |slots| && 0 <= j < |slots| && slots[i].node == node == slots[j].node
                    && v.marks[i] == NOT_NOW && j in v.ever && init[j] == 0) ==> slots[j].time <= slots[i].time
  }

  /** Whatever may be picked next is later than this instant. */
  ghost predicate NothingBy(slots: seq<Slot>, v: View, t: int) {
    && |v.marks| == |slots| && v.cur.Valid(|slots|)
    && forall i :: 0 <= i < |slots| && Candidate(slots, v.marks[i], i, v.cur) ==> t < slots[i].time
  }

  lemma {:induction false} FillingNumbers(slots: seq<Slot>, init: seq<int>, ppn: nat, v: View)
    requires Filling(slots, init, ppn, v)
    ensures |v.marks| == |slots| == |init| && v.cur.Valid(|slots|) && v.cur.attempt >= 1
  {
  }

  // ----- the least start: what is left when nothing can be picked by an instant

  /** Older picks of the node being filled would be picked before any later slot. */
  lemma {:induction false} OnlyCurrentBy(slots: seq<Slot>, init: seq<int>, ppn: nat, v: View, t: int, x: int)
    requires Filling(slots, init, ppn, v) && NothingBy(slots, v, t)
    requires 0 <= x < |slots| && v.marks[x] > 0 && slots[x].time <= t && v.cur.considered == Some(slots[x].node)
    ensures x in v.tmp
  {
    hide Given, AllGiven;
    PickedNow(slots, init, ppn, v);
    assert !Candidate(slots, v.marks[x], x, v.cur);
  }

  /** A slot that depends on no exception has been picked by then. */
  lemma {:induction false} PlainIsPicked(slots: seq<Slot>, init: seq<int>, ppn: nat, fixedNames: seq<Option<int>>, v: View, node: int, t: int, x: int)
    requires Paced(slots, init, ppn, v) && Honoured(slots, init, v.marks, fixedNames, v.nodes)
    requires Open(fixedNames, v.nodes, node) && NothingBy(slots, v, t)
    requires 0 <= x < |slots| && init[x] == 0 && slots[x].node == node && slots[x].time <= t
    ensures x in v.ever
  {
    hide AllGiven, Frontmost, FewStale, NoneToSpare, PlacesLeft;
    assert Candidate(slots, 0, x, v.cur);
  }

  /** So has one that fits below a slot of its node, for places of a single CPU. */
  lemma {:induction false} SpareIsPicked(slots: seq<Slot>, init: seq<int>, v: View, t: int, i: int, j: int)
    requires |init| == |slots| && NothingBy(slots, v, t) && Frontmost(slots, init, v) && v.cur.nodeLatest == -1
    requires 0 <= i < |slots| && 0 <= j < |slots| && init[j] == 0 && slots[i].time < slots[j].time <= t && j in v.ever
    ensures v.marks[i] != NOT_NOW
  {
    assert !Candidate(slots, v.marks[i], i, v.cur);
  }

  /** ... and, when its node has given nothing, for a single place. */
  lemma {:induction false} SpareOnNode(slots: seq<Slot>, init: seq<int>, ppn: nat, v: View, t: int, i: int, j: int)
    requires Filling(slots, init, ppn, v) && Paced(slots, init, ppn, v) && NothingBy(slots, v, t)
    requires 0 <= i < |slots| && 0 <= j < |slots| && slots[i].node == slots[j].node && Some(slots[i].node) !in v.nodes
    requires init[j] == 0 && slots[i].time < slots[j].time <= t && j in v.ever && v.marks[j] > 0
    ensures v.marks[i] != NOT_NOW
  {
    hide Given, AllGiven, Frontmost, PickedOrGiven, FewStale;
    if v.cur.considered == Some(slots[i].node) {
      OnlyCurrentBy(slots, init, ppn, v, t, j);
      assert j in Elements(v.tmp);
      assert v.cur.nodeLatest in Elements(v.tmp);
      assert !Candidate(slots, v.marks[i], i, v.cur);
    } else {
      assert NoneToSpare(slots, init, v, slots[i].node);
    }
  }

  lemma {:induction false} GivenHasGiven(slots: seq<Slot>, init: seq<int>, ppn: nat, v: View, x: int)
    requires Filling(slots, init, ppn, v) && x in AllGiven(v.takes)
    ensures 0 <= x < |slots| && Some(slots[x].node) in v.nodes && v.marks[x] == TAKEN
  {
    hide AllGiven;
    var k := InGiven(v.takes, x);
    assert GivenBy(slots, init, v.nodes[k], v.takes[k]);
  }

  lemma {:induction false} UsableIsPicked(slots: seq<Slot>, init: seq<int>, ppn: nat, fixedNames: seq<Option<int>>, v: View, node: int, t: int, x: int)
    requires Filling(slots, init, ppn, v) && Paced(slots, init, ppn, v) && Honoured(slots, init, v.marks, fixedNames, v.nodes)
    requires Open(fixedNames, v.nodes, node) && NothingBy(slots, v, t) && (Some(node) !in v.nodes || v.cur.considered == None)
    requires x in UsableBy(slots, init, node, t)
    ensures x in v.ever && slots[x].time <= t
  {
    hide Given, AllGiven, FewStale, NoneToSpare, Frontmost, PlacesLeft;
    if init[x] == 0 {
      PlainIsPicked(slots, init, ppn, fixedNames, v, node, t, x);
    } else {
      var j :| 0 <= j < |slots| && init[j] == 0 && slots[j].node == node && slots[x].time < slots[j].time <= t;
      PlainIsPicked(slots, init, ppn, fixedNames, v, node, t, j);
      if v.cur.considered == None {
        SpareIsPicked(slots, init, v, t, x, j);
      } else {
        if j in AllGiven(v.takes) {
          GivenHasGiven(slots, init, ppn, v, j);
        }
        SpareOnNode(slots, init, ppn, v, t, x, j);
      }
    }
  }

  lemma {:induction false} BaseMonotone(a: nat, b: nat, ppn: nat)
    requires a <= b
    ensures Base(a, ppn) <= Base(b, ppn)
  {
    MulMonotone(a, b, ppn);
  }

  lemma {:induction false} MulMonotone(a: int, b: int, c: int)
    requires a <= b && c >= 0
    ensures a * c <= b * c
  {
  }

  /** A node that has given n times, and has too few picks left, has fewer than ppn slots for each of n + 1 places. */
  lemma {:induction false} TooFew(slots: seq<Slot>, init: seq<int>, ppn: nat, v: View, node: int, some: set<int>)
    requires Filling(slots, init, ppn, v)
    requires forall x :: x in some ==> 0 <= x < |slots| && slots[x].node == node && (v.marks[x] > 0 || x in AllGiven(v.takes))
    requires |Picked(slots, v.marks, node) * some| < ppn
    ensures |some| < Base(multiset(v.nodes)[Some(node)] + 1, ppn)
  {
    hide Base, Given, AllGiven;
    GivenCounts(slots, init, ppn, v.nodes, v.latest, v.takes, node);
    NextBase(multiset(v.nodes)[Some(node)], ppn);
    var picked, given := Picked(slots, v.marks, node) * some, GivenOn(slots, v.takes, node);
    assert some <= picked + given;
    CardOfSubset(some, picked + given);
    CardOfUnion(picked, given);
  }

  lemma {:induction false} CardOfUnion(a: set<int>, b: set<int>)
    ensures |a + b| <= |a| + |b|
  {
    assert a + b == a + (b - a);
    DisjointCard(a, b - a);
    CardOfSubset(b - a, b);
  }

  /** Of the slots that are idle by then, too few are picked and not given. */
  lemma {:induction false} FewBy(slots: seq<Slot>, init: seq<int>, ppn: nat, v: View, node: int, t: int, some: set<int>)
    requires Filling(slots, init, ppn, v) && Paced(slots, init, ppn, v) && NothingBy(slots, v, t) && |v.tmp| < ppn
    requires forall x :: x in some ==> 0 <= x < |slots| && slots[x].node == node && slots[x].time <= t
    ensures |Picked(slots, v.marks, node) * some| < ppn
  {
    hide Given, AllGiven, NoneToSpare, Frontmost, PickedOrGiven, NothingBy;
    var picked := Picked(slots, v.marks, node);
    if v.cur.considered == Some(node) {
      forall x | x in picked * some
        ensures x in Elements(v.tmp)
      {
        OnlyCurrentBy(slots, init, ppn, v, t, x);
      }
      CardOfDistinct(v.tmp);
      CardOfSubset(picked * some, Elements(v.tmp));
    } else {
      assert FewStale(slots, v, node, ppn);
      assert picked - Elements(v.tmp) == picked;
      CardOfSubset(picked * some, picked);
    }
  }

  /** So there is no room for one more place on a node that is open. */
  lemma {:induction false} NoRoomBy(slots: seq<Slot>, init: seq<int>, ppn: nat, fixedNames: seq<Option<int>>, v: View, node: int, t: int, places: nat)
    requires Filling(slots, init, ppn, v) && Paced(slots, init, ppn, v) && Honoured(slots, init, v.marks, fixedNames, v.nodes)
    requires Open(fixedNames, v.nodes, node) && NothingBy(slots, v, t) && |v.tmp| < ppn
    requires multiset(v.nodes)[Some(node)] + 1 <= places
    ensures !RoomOn(slots, init, ppn, node, places, t)
  {
    hide Base, Given, AllGiven, FewStale, NoneToSpare, Frontmost, PlacesLeft, NothingBy;
    BaseMonotone(multiset(v.nodes)[Some(node)] + 1, places, ppn);
    var some := AvailableBy(slots, init, node, t);
    forall x | x in some
      ensures x in v.ever
    {
      PlainIsPicked(slots, init, ppn, fixedNames, v, node, t, x);
    }
    FewBy(slots, init, ppn, v, node, t, some);
    TooFew(slots, init, ppn, v, node, some);
    if places == 1 || ppn == 1 {
      var all := UsableBy(slots, init, node, t);
      assert places == 1 ==> Some(node) !in v.nodes;
      assert ppn == 1 ==> v.cur.considered == None by {
        assert v.tmp == [] ==> Elements(v.tmp) == {};
      }
      forall x | x in all
        ensures x in v.ever && slots[x].time <= t
      {
        UsableIsPicked(slots, init, ppn, fixedNames, v, node, t, x);
      }
      FewBy(slots, init, ppn, v, node, t, all);
      TooFew(slots, init, ppn, v, node, all);
    }
  }

  lemma {:induction false} MoreOfOne(a: multiset<Option<int>>, b: multiset<Option<int>>)
    ensures |b| < |a| ==> exists m :: m in a && b[m] < a[m]
  {
    if forall m :: m in a ==> a[m] <= b[m] {
      assert a <= b;
      assert b == a + (b - a);
    }
  }

  /** Nodes for all places need one more than those that have given: on some open node, or on one that is fixed. */
  lemma {:induction false} OneTooMany(slots: seq<Slot>, init: seq<int>, ppn: nat, fixedNames: seq<Option<int>>, marks: seq<int>,
                                      nodes: seq<Option<int>>, some: seq<Option<int>>, t: int) returns (node: int)
    requires Honoured(slots, init, marks, fixedNames, nodes) && |nodes| < |fixedNames|
    requires PlacedBy(slots, init, ppn, fixedNames, some, t)
    ensures Open(fixedNames, nodes, node) && multiset(nodes)[Some(node)] + 1 <= multiset(some)[Some(node)]
  {
    hide RoomOn;
    MoreOfOne(multiset(some), multiset(nodes));
    var more :| more in multiset(some) && multiset(nodes)[more] < multiset(some)[more];
    node := more.value;
    assert more == Some(node);
    if None !in fixedNames {
      assert multiset(some)[more] == multiset(fixedNames)[more];
    }
  }

  /** As long as places are missing, and nothing can be picked by an instant, the job cannot have its slots then. */
  lemma {:induction false} NothingByThen(slots: seq<Slot>, init: seq<int>, ppn: nat, fixedNames: seq<Option<int>>, v: View, t: int)
    requires Filling(slots, init, ppn, v) && Paced(slots, init, ppn, v) && |v.tmp| < ppn
    requires Honoured(slots, init, v.marks, fixedNames, v.nodes) && |v.nodes| < |fixedNames| && NothingBy(slots, v, t)
    ensures !CanStart(slots, init, ppn, fixedNames, t)
  {
    hide Filling, Paced, Honoured, Base, Open, NothingBy, RoomOn;
    FillingNumbers(slots, init, ppn, v);
    if some :| PlacedBy(slots, init, ppn, fixedNames, some, t) {
      var node := OneTooMany(slots, init, ppn, fixedNames, v.marks, v.nodes, some, t);
      NoRoomBy(slots, init, ppn, fixedNames, v, node, t, multiset(some)[Some(node)]);
      assert false;
    }
  }

  /** No instant in front of f has slots for all places. */
  ghost predicate NothingEarlier(slots: seq<Slot>, init: seq<int>, ppn: nat, fixedNames: seq<Option<int>>, v: View)
    requires |init| == |slots|
  {
    v.ever != {} ==> 0 <= v.f < |slots| && forall t :: t < slots[v.f].time ==> !CanStart(slots, init, ppn, fixedNames, t)
  }

  /** A pick of a slot that depends on no exception moves on to an instant in front of which there is no start. */
  lemma {:induction false} PickIsLeast(slots: seq<Slot>, init: seq<int>, ppn: nat, fixedNames: seq<Option<int>>, v: View, p: nat, at: nat)
    requires Filling(slots, init, ppn, v) && Paced(slots, init, ppn, v) && |v.tmp| < ppn && PickStep(slots, init, ppn, v, p, at)
    requires Honoured(slots, init, v.marks, fixedNames, v.nodes) && |v.nodes| < |fixedNames|
    requires NothingEarlier(slots, init, ppn, fixedNames, v) && (v.marks[p] == 0 || v.ever != {})
    ensures NothingEarlier(slots, init, ppn, fixedNames, AfterPick(slots, ppn, v, p, at))
  {
    hide Filling, Paced, Honoured, Base, CanStart, InPlace, Kept;
    if v.marks[p] == 0 {
      forall t | t < slots[p].time
        ensures !CanStart(slots, init, ppn, fixedNames, t)
      {
        assert NothingBy(slots, v, t);
        NothingByThen(slots, init, ppn, fixedNames, v, t);
      }
    }
  }

  lemma {:induction false} StuckCannotStart(slots: seq<Slot>, init: seq<int>, ppn: nat, fixedNames: seq<Option<int>>, v: View, t: int)
    requires Filling(slots, init, ppn, v) && Paced(slots, init, ppn, v) && |v.tmp| < ppn
    requires Honoured(slots, init, v.marks, fixedNames, v.nodes) && |v.nodes| < |fixedNames|
    requires NoCandidate(slots, v.marks, v.cur)
    ensures !CanStart(slots, init, ppn, fixedNames, t)
  {
    hide Filling, Paced, Honoured, CanStart;
    FillingNumbers(slots, init, ppn, v);
    assert NothingBy(slots, v, t);
    NothingByThen(slots, init, ppn, fixedNames, v, t);
  }

  // ----- the least start: what picks and commits keep

  /** When a slot never picked before is picked, the node being filled has no older picks. */
  lemma {:induction false} PickedIsCurrent(slots: seq<Slot>, init: seq<int>, ppn: nat, v: View, p: int)
    requires Filling(slots, init, ppn, v) && Ranked(slots, v) && v.cur.considered.Some?
    requires FirstCandidate(slots, v.marks, v.cur, p) && v.marks[p] == 0
    ensures Picked(slots, v.marks, v.cur.considered.value) == Elements(v.tmp)
    ensures |Elements(v.tmp)| == |v.tmp|
  {
    hide Given, AllGiven;
    PickedNow(slots, init, ppn, v);
    CardOfDistinct(v.tmp);
    forall i | 0 <= i < |slots| && v.marks[i] > 0 && slots[i].node == v.cur.considered.value
      ensures v.marks[i] == v.cur.attempt
    {
      assert i in v.ever;
      assert Candidate(slots, v.marks[i], i, v.cur) || v.marks[i] >= v.cur.attempt;
    }
  }

  lemma {:induction false} StaleAfterPick(slots: seq<Slot>, init: seq<int>, ppn: nat, v: View, p: nat, at: nat, node: int)
    requires Filling(slots, init, ppn, v) && Ranked(slots, v) && FewStale(slots, v, node, ppn)
    requires PickStep(slots, init, ppn, v, p, at) && |v.tmp| < ppn
    ensures FewStale(slots, AfterPick(slots, ppn, v, p, at), node, ppn)
  {
    hide Given, AllGiven, Base, Ranked, InPlace, FirstCandidate;
    FillingNumbers(slots, init, ppn, v);
    var w := AfterPick(slots, ppn, v, p, at);
    var was, left := Picked(slots, v.marks, node), Picked(slots, w.marks, node) - Elements(w.tmp);
    if NextAttempt(slots, v.cur, p) == v.cur.attempt {
      CardOfSubset(left, was - Elements(v.tmp));
    } else {
      SwitchIsFresh(slots, init, ppn, v, p);
      if v.cur.considered == Some(node) {
        PickedIsCurrent(slots, init, ppn, v, p);
        CardOfSubset(left, Elements(v.tmp));
      } else {
        assert was - Elements(v.tmp) == was;
        CardOfSubset(left, was);
      }
    }
  }

  /** Turning to another node leaves no slot behind that would fit below one picked on the old node. */
  lemma {:induction false} LeavesNothing(slots: seq<Slot>, init: seq<int>, ppn: nat, v: View, p: nat, node: int)
    requires Filling(slots, init, ppn, v) && Ranked(slots, v) && PickedOrGiven(slots, init, v)
    requires Some(node) !in v.nodes && v.cur.considered == Some(node)
    requires p < |slots| && FirstCandidate(slots, v.marks, v.cur, p) && v.marks[p] == 0
    requires forall x :: x in v.ever ==> 0 <= x < |slots| && IsFresh(init[x])
    ensures NoneToSpare(slots, init, v, node)
  {
    hide Given, AllGiven, Open, EndsBehind;
    var l := v.cur.nodeLatest;
    assert l in Elements(v.tmp);
    forall i, j | 0 <= i < |slots| && 0 <= j < |slots| && slots[i].node == node == slots[j].node
                  && v.marks[i] == NOT_NOW && j in v.ever && init[j] == 0
      ensures slots[j].time <= slots[i].time
    {
      if j in AllGiven(v.takes) {
        GivenHasGiven(slots, init, ppn, v, j);
      }
      PickedIsCurrent(slots, init, ppn, v, p);
      assert j in Picked(slots, v.marks, node);
      assert Candidate(slots, v.marks[i], i, v.cur) ==> Precedes(slots, p, i);
    }
  }

  lemma {:induction false} SpareAfterPick(slots: seq<Slot>, init: seq<int>, ppn: nat, v: View, p: nat, at: nat, node: int)
    requires Filling(slots, init, ppn, v) && Ranked(slots, v) && Paced(slots, init, ppn, v) && PickStep(slots, init, ppn, v, p, at)
    requires Some(node) !in v.nodes && node != slots[p].node
    ensures NoneToSpare(slots, init, AfterPick(slots, ppn, v, p, at), node)
  {
    hide Given, AllGiven, Base, Ranked, InPlace, FirstCandidate, PickedOrGiven, FewStale, Filling;
    FillingNumbers(slots, init, ppn, v);
    if v.cur.considered == Some(node) {
      SwitchIsFresh(slots, init, ppn, v, p);
      LeavesNothing(slots, init, ppn, v, p, node);
    }
    assert NoneToSpare(slots, init, v, node);
  }

  lemma {:induction false} FrontAfterPick(slots: seq<Slot>, init: seq<int>, ppn: nat, v: View, p: nat, at: nat)
    requires Filling(slots, init, ppn, v) && Ranked(slots, v) && Frontmost(slots, init, v) && PickStep(slots, init, ppn, v, p, at)
    requires MarksOf(init, v.marks) && InitialMarks(init)
    ensures Frontmost(slots, init, AfterPick(slots, ppn, v, p, at))
    ensures v.marks[p] == 0 || v.ever != {}
  {
    hide Given, AllGiven, Base, InPlace, EndsBehind;
    if v.cur.nodeLatest != -1 {
      assert v.cur.nodeLatest in Elements(v.tmp);
      assert v.cur.nodeLatest in v.ever;
    }
  }

  lemma {:induction false} PickedAfterPick(slots: seq<Slot>, init: seq<int>, ppn: nat, v: View, p: nat, at: nat)
    requires PickStep(slots, init, ppn, v, p, at) && PickedOrGiven(slots, init, v) && v.cur.attempt >= 1
    ensures PickedOrGiven(slots, init, AfterPick(slots, ppn, v, p, at))
  {
    hide AllGiven, Base, InPlace, FirstCandidate;
  }

  lemma {:induction false} FrontIsHeld(slots: seq<Slot>, init: seq<int>, ppn: nat, v: View, p: nat, at: nat)
    requires Filling(slots, init, ppn, v) && Ranked(slots, v) && Paced(slots, init, ppn, v) && PickStep(slots, init, ppn, v, p, at)
    requires MarksOf(init, v.marks) && (v.marks[p] == 0 || v.ever != {})
    ensures var w := AfterPick(slots, ppn, v, p, at);
            && (w.f in w.tmp || w.f in AllGiven(w.takes)) && (w.nodes == [] ==> w.f in w.tmp) && (NoException(init) ==> w.f in w.tmp)
  {
    hide Given, AllGiven, Base, InPlace, EndsBehind, Frontmost, FewStale, NoneToSpare;
    if NextAttempt(slots, v.cur, p) != v.cur.attempt {
      SwitchIsFresh(slots, init, ppn, v, p);
    }
  }

  lemma {:induction false} PacedPick(slots: seq<Slot>, init: seq<int>, ppn: nat, v: View, p: nat, at: nat)
    requires Filling(slots, init, ppn, v) && Ranked(slots, v) && Paced(slots, init, ppn, v) && MarksOf(init, v.marks) && InitialMarks(init)
    requires PickStep(slots, init, ppn, v, p, at) && |v.tmp| < ppn
    ensures Paced(slots, init, ppn, AfterPick(slots, ppn, v, p, at))
    ensures v.marks[p] == 0 || v.ever != {}
  {
    hide Given, AllGiven, Base, Frontmost, PickedOrGiven, FewStale, NoneToSpare, InPlace, FirstCandidate, Filling, Ranked, MarksOf, InitialMarks;
    FillingNumbers(slots, init, ppn, v);
    FrontAfterPick(slots, init, ppn, v, p, at);
    var w := AfterPick(slots, ppn, v, p, at);
    PickedAfterPick(slots, init, ppn, v, p, at);
    FrontIsHeld(slots, init, ppn, v, p, at);
    forall node
      ensures FewStale(slots, w, node, ppn)
    {
      assert FewStale(slots, v, node, ppn);
      StaleAfterPick(slots, init, ppn, v, p, at, node);
    }
    forall node | Some(node) !in w.nodes && w.cur.considered != Some(node)
      ensures NoneToSpare(slots, init, w, node)
    {
      SpareAfterPick(slots, init, ppn, v, p, at, node);
    }
  }

  lemma {:induction false} PacedCommit(slots: seq<Slot>, init: seq<int>, ppn: nat, v: View, usedUp: bool, marks': seq<int>)
    requires Filling(slots, init, ppn, v) && Paced(slots, init, ppn, v) && v.cur.considered.Some? && |v.tmp| == ppn > 0
    requires Commits(slots, v.marks, v.tmp, v.cur.considered.value, usedUp, marks')
    requires v.cpus != [] && 0 <= v.cpus[|v.cpus| - 1] < |slots|
    requires AllGiven(AfterCommit(slots, v, marks').takes) == AllGiven(v.takes) + Elements(v.tmp)
    ensures Paced(slots, init, ppn, AfterCommit(slots, v, marks'))
  {
    hide Given, AllGiven, Frontmost, FewStale, NoneToSpare;
    var w := AfterCommit(slots, v, marks');
    assert Frontmost(slots, init, w) by {
      FrontStays(slots, init, v, marks');
    }
    forall node
      ensures FewStale(slots, w, node, ppn)
    {
      assert FewStale(slots, v, node, ppn);
      StaleAfterCommit(slots, v, ppn, usedUp, marks', node);
    }
    forall node | Some(node) !in w.nodes
      ensures NoneToSpare(slots, init, w, node)
    {
      assert w.nodes == v.nodes + [v.cur.considered];
      assert v.cur.considered in w.nodes;
      assert NoneToSpare(slots, init, v, node);
      SpareAfterCommit(slots, init, v, usedUp, marks', node);
    }
  }

  lemma {:induction false} FrontStays(slots: seq<Slot>, init: seq<int>, v: View, marks': seq<int>)
    requires |init| == |slots| && Frontmost(slots, init, v) && v.cpus != [] && 0 <= v.cpus[|v.cpus| - 1] < |slots|
    ensures Frontmost(slots, init, AfterCommit(slots, v, marks'))
  {
  }

  lemma {:induction false} StaleAfterCommit(slots: seq<Slot>, v: View, ppn: nat, usedUp: bool, marks': seq<int>, node: int)
    requires |v.marks| == |slots| && FewStale(slots, v, node, ppn) && v.cur.considered.Some?
    requires Commits(slots, v.marks, v.tmp, v.cur.considered.value, usedUp, marks')
    requires v.cpus != [] && 0 <= v.cpus[|v.cpus| - 1] < |slots|
    ensures FewStale(slots, AfterCommit(slots, v, marks'), node, ppn)
  {
    CardOfSubset(Picked(slots, marks', node) - Elements([]), Picked(slots, v.marks, node) - Elements(v.tmp));
  }

  lemma {:induction false} SpareAfterCommit(slots: seq<Slot>, init: seq<int>, v: View, usedUp: bool, marks': seq<int>, node: int)
    requires |v.marks| == |slots| == |init| && NoneToSpare(slots, init, v, node) && v.cur.considered.Some?
    requires Commits(slots, v.marks, v.tmp, v.cur.considered.value, usedUp, marks')
    requires v.cpus != [] && 0 <= v.cpus[|v.cpus| - 1] < |slots|
    ensures NoneToSpare(slots, init, AfterCommit(slots, v, marks'), node)
  {
  }

  // ----- the least start: what the given slots suffice for

  /** From the instant on when all given slots are free, the job can have its slots: when none depends on the exception, or on one node. */
  lemma {:induction false} GivenSuffice(slots: seq<Slot>, init: seq<int>, ppn: nat, fixedNames: seq<Option<int>>, v: View, start: int)
    requires |init| == |slots| && Given(slots, init, ppn, v.nodes, v.latest, v.takes)
    requires NoException(init) || (|fixedNames| == 1 && BelowFront(slots, init, v))
    requires |v.nodes| == |fixedNames| && (None !in fixedNames ==> multiset(v.nodes) == multiset(fixedNames))
    requires forall x :: x in AllGiven(v.takes) ==> 0 <= x < |slots| && slots[x].time <= start
    ensures CanStart(slots, init, ppn, fixedNames, start)
  {
    hide Base, AllGiven, BelowFront;
    forall n: int
      ensures RoomOn(slots, init, ppn, n, multiset(v.nodes)[Some(n)], start)
    {
      GivenCounts(slots, init, ppn, v.nodes, v.latest, v.takes, n);
      GivenMeans(slots, init, ppn, v.nodes, v.latest, v.takes);
      if NoException(init) {
        CardOfSubset(GivenOn(slots, v.takes, n), AvailableBy(slots, init, n, start));
      } else {
        GivenIsUsable(slots, init, v, n, start);
        CardOfSubset(GivenOn(slots, v.takes, n), UsableBy(slots, init, n, start));
        assert |v.nodes| == 1 ==> v.nodes == [v.nodes[0]];
        assert multiset(v.nodes)[Some(n)] <= 1;
        NoPlaces(ppn);
      }
    }
    assert None !in v.nodes;
    assert PlacedBy(slots, init, ppn, fixedNames, v.nodes, start);
  }

  lemma {:induction false} NoPlaces(ppn: nat)
    ensures Base(0, ppn) == 0
  {
  }

  /** f is given, and the given slots that depend on the exception are earlier, and on its node. */
  ghost predicate BelowFront(slots: seq<Slot>, init: seq<int>, v: View)
    requires |init| == |slots|
  {
    && 0 <= v.f < |slots| && init[v.f] == 0 && v.f in AllGiven(v.takes)
    && forall x :: x in AllGiven(v.takes) ==>
         && 0 <= x < |slots| && slots[x].node == slots[v.f].node && IsFresh(init[x])
         && (init[x] == NOT_NOW ==> slots[x].time < slots[v.f].time)
  }

  lemma {:induction false} GivenIsUsable(slots: seq<Slot>, init: seq<int>, v: View, n: int, start: int)
    requires |init| == |slots| && BelowFront(slots, init, v)
    requires forall x :: x in AllGiven(v.takes) ==> 0 <= x < |slots| && slots[x].time <= start
    ensures GivenOn(slots, v.takes, n) <= UsableBy(slots, init, n, start)
  {
    hide AllGiven;
  }

  /** On one node, f is among the slots given. */
  lemma {:induction false} OneNodeBelowFront(slots: seq<Slot>, init: seq<int>, ppn: nat, v: View)
    requires Filling(slots, init, ppn, v) && Ranked(slots, v) && Paced(slots, init, ppn, v) && |v.nodes| == 1 && v.tmp == [] && ppn >= 1
    ensures BelowFront(slots, init, v)
  {
    hide FewStale, NoneToSpare, PickedOrGiven, EndsBehind;
    assert AllGiven(v.takes[..0]) == {};
    assert v.takes == [v.takes[0]] && AllGiven(v.takes) == v.takes[0];
    assert GivenBy(slots, init, v.nodes[0], v.takes[0]);
  }

  // ----- recorded slots and given slots

  /** Among slots that are as early, those given before come first. */
  ghost predicate GivenFirst(slots: seq<Slot>, cpus: seq<int>, given: set<int>)
    requires Indexes(slots, cpus)
  {
    forall a, b :: 0 <= a < b < |cpus| && cpus[b] in given && cpus[a] !in given ==> slots[cpus[a]].time < slots[cpus[b]].time
  }

  /** The recorded slots are those given and those picked now, each once. */
  ghost predicate Exact(slots: seq<Slot>, v: View) {
    && Indexes(slots, v.cpus) && Distinct(v.cpus) && Elements(v.cpus) == AllGiven(v.takes) + Elements(v.tmp)
    && GivenFirst(slots, v.cpus, AllGiven(v.takes))
  }

  /** No slot of the node being filled is earlier than one given before. */
  ghost predicate NoneEarlier(slots: seq<Slot>, v: View) {
    forall x, g :: x in v.tmp && g in AllGiven(v.takes) ==>
      0 <= x < |slots| && 0 <= g < |slots| && slots[g].time <= slots[x].time
  }

  lemma {:induction false} SetsOfOneSize(a: set<int>, b: set<int>)
    requires a <= b && |a| == |b|
    ensures a == b
  {
    assert b == a + (b - a);
    assert |b| == |a| + |b - a|;
  }

  lemma {:induction false} PositionOf(s: seq<int>, x: int) returns (k: nat)
    requires x in s
    ensures k < |s| && s[k] == x
  {
    k :| 0 <= k < |s| && s[k] == x;
  }

  lemma {:induction false} BehindPrefix(s: seq<int>, n: nat, x: int) returns (k: nat)
    requires n <= |s| && x in s && x !in s[..n]
    ensures n <= k < |s| && s[k] == x
  {
    assert forall j :: 0 <= j < n ==> s[..n][j] == s[j];
    k := PositionOf(s, x);
  }

  lemma {:induction false} PrefixElements(s: seq<int>, n: nat)
    requires Distinct(s) && n <= |s|
    ensures |Elements(s[..n])| == n && forall x :: x in Elements(s[..n]) <==> x in s[..n]
  {
    CardOfDistinct(s[..n]);
  }

  /** Cutting off the record behind the completed nodes leaves exactly their slots if and only if none of the others is earlier. */
  lemma {:induction false} SwitchKeepsIff(slots: seq<Slot>, init: seq<int>, ppn: nat, v: View)
    requires Filling(slots, init, ppn, v) && Exact(slots, v) && SortedByTime(slots, v.cpus)
    requires |v.cpus| == Base(|v.nodes|, ppn) + |v.tmp|
    ensures Elements(v.cpus[..Base(|v.nodes|, ppn)]) == AllGiven(v.takes) <==> NoneEarlier(slots, v)
  {
    hide Given, AllGiven;
    var base, given := Base(|v.nodes|, ppn), AllGiven(v.takes);
    var front := Elements(v.cpus[..base]);
    PickedNow(slots, init, ppn, v);
    GivenCounts(slots, init, ppn, v.nodes, v.latest, v.takes, 0);
    PrefixElements(v.cpus, base);
    if front == given {
      forall x, g | x in v.tmp && g in given
        ensures 0 <= x < |slots| && 0 <= g < |slots| && slots[g].time <= slots[x].time
      {
        assert x in Elements(v.cpus) && g in front && x !in front;
        var a := BehindPrefix(v.cpus, base, x);
        var b := PositionOf(v.cpus[..base], g);
      }
    }
    if NoneEarlier(slots, v) {
      NoneEarlierKeeps(slots, init, ppn, v);
    }
  }

  lemma {:induction false} NoneEarlierKeeps(slots: seq<Slot>, init: seq<int>, ppn: nat, v: View)
    requires Filling(slots, init, ppn, v) && Exact(slots, v) && NoneEarlier(slots, v)
    requires |v.cpus| == Base(|v.nodes|, ppn) + |v.tmp|
    ensures Elements(v.cpus[..Base(|v.nodes|, ppn)]) == AllGiven(v.takes)
  {
    hide Given, AllGiven, GivenFirst, NoneEarlier, Base;
    var base, given := Base(|v.nodes|, ppn), AllGiven(v.takes);
    var front := Elements(v.cpus[..base]);
    GivenCounts(slots, init, ppn, v.nodes, v.latest, v.takes, 0);
    PrefixElements(v.cpus, base);
    hide Exact, Filling, Elements;
    forall g | g in given
      ensures g in front
    {
      InFrontOrMore(slots, v, base, g);
    }
    SetsOfOneSize(given, front);
  }

  lemma {:induction false} InFrontOrMore(slots: seq<Slot>, v: View, base: nat, g: int)
    requires Exact(slots, v) && NoneEarlier(slots, v) && base <= |v.cpus| && g in AllGiven(v.takes)
    ensures g in Elements(v.cpus[..base]) || |Elements(v.cpus[..base])| < |AllGiven(v.takes)|
  {
    hide AllGiven, NoneEarlier, GivenFirst;
    assert g in Elements(v.cpus);
    if g !in v.cpus[..base] {
      var b := BehindPrefix(v.cpus, base, g);
      FrontIsFewer(slots, v, base, b);
    }
  }

  lemma {:induction false} FrontIsFewer(slots: seq<Slot>, v: View, base: nat, b: nat)
    requires Exact(slots, v) && NoneEarlier(slots, v) && base <= b < |v.cpus| && v.cpus[b] in AllGiven(v.takes)
    ensures |Elements(v.cpus[..base])| < |AllGiven(v.takes)|
  {
    hide AllGiven;
    GivenIsAhead(slots, v, base, b);
    var given := AllGiven(v.takes);
    CardOfSubset(Elements(v.cpus[..base]), given - {v.cpus[b]});
    DisjointCard(given - {v.cpus[b]}, {v.cpus[b]});
    assert given == given - {v.cpus[b]} + {v.cpus[b]};
  }

  lemma {:induction false} GivenIsAhead(slots: seq<Slot>, v: View, base: nat, b: nat)
    requires Exact(slots, v) && NoneEarlier(slots, v) && base <= b < |v.cpus| && v.cpus[b] in AllGiven(v.takes)
    ensures forall x :: x in Elements(v.cpus[..base]) ==> x in AllGiven(v.takes) && x != v.cpus[b]
  {
    hide AllGiven;
    forall x | x in v.cpus[..base]
      ensures x in AllGiven(v.takes) && x != v.cpus[b]
    {
      var a := PositionOf(v.cpus[..base], x);
      assert v.cpus[a] in Elements(v.cpus);
    }
  }

  /** A slot that was given is not recorded any more. */
  ghost predicate Lossy(v: View) {
    exists g :: g in AllGiven(v.takes) && g !in v.cpus
  }

  /** The slot picked is neither given nor recorded. */
  lemma {:induction false} PickIsNew(slots: seq<Slot>, init: seq<int>, ppn: nat, v: View, p: nat)
    requires Filling(slots, init, ppn, v) && p < |slots| && FirstCandidate(slots, v.marks, v.cur, p)
    ensures p !in AllGiven(v.takes) && p !in v.tmp
  {
    hide Given, AllGiven;
    PickedNow(slots, init, ppn, v);
  }

  lemma {:induction false} ElementsInserted(s: seq<int>, at: nat, p: int)
    requires at <= |s|
    ensures Elements(Insert(s, at, p)) == Elements(s) + {p}
    ensures Distinct(s) && p !in s ==> Distinct(Insert(s, at, p))
    ensures Distinct(Insert(s, at, p)) ==> p !in s
  {
    var r := Insert(s, at, p);
    assert s == s[..at] + s[at..];
    assert forall x :: x in r <==> x == p || x in s;
    if Distinct(s) && p !in s {
      InsertDistinct(s, at, p);
    }
    if Distinct(r) {
      forall a | 0 <= a < |s|
        ensures s[a] != p
      {
        assert r[at] == p && r[if a < at then a else a + 1] == s[a];
      }
    }
  }

  lemma {:induction false} GivenStaysFirst(slots: seq<Slot>, kept: seq<int>, given: set<int>, at: nat, p: nat)
    requires Indexes(slots, kept) && SortedByTime(slots, kept) && InPlace(slots, kept, at, p) && GivenFirst(slots, kept, given) && p !in given
    ensures Indexes(slots, Insert(kept, at, p)) && GivenFirst(slots, Insert(kept, at, p), given)
  {
    var r := Insert(kept, at, p);
    assert forall a :: 0 <= a < |r| ==> r[a] == if a < at then kept[a] else if a == at then p else kept[a - 1];
    forall a, b | 0 <= a < b < |r| && r[b] in given && r[a] !in given
      ensures slots[r[a]].time < slots[r[b]].time
    {
      assert b != at;
      if a == at {
        assert slots[kept[at]].time <= slots[kept[b - 1]].time;
      }
    }
  }

  /** The record stays exact over a pick, unless it switches nodes while some slot is earlier than a given one. */
  lemma {:induction false} PickKeepsExact(slots: seq<Slot>, init: seq<int>, ppn: nat, v: View, p: nat, at: nat)
    requires Filling(slots, init, ppn, v) && Exact(slots, v) && PickStep(slots, init, ppn, v, p, at)
    requires SortedByTime(slots, v.cpus) && |v.cpus| == Base(|v.nodes|, ppn) + |v.tmp|
    requires NextAttempt(slots, v.cur, p) == v.cur.attempt || NoneEarlier(slots, v)
    ensures Exact(slots, AfterPick(slots, ppn, v, p, at))
  {
    hide Given, AllGiven, Base, FirstCandidate, GivenFirst, InPlace, Filling, SortedByTime, NoneEarlier, Precedes, NoCandidate;
    var kept, given := Kept(slots, ppn, v, p), AllGiven(v.takes);
    KeptIsExact(slots, init, ppn, v, p, at);
    KeptIsSorted(slots, ppn, v, p);
    hide Kept, Distinct, Indexes;
    ElementsInserted(kept, at, p);
    PicksOneMore(slots, v, p);
    GivenStaysFirst(slots, kept, given, at, p);
    hide Elements, PicksStaying, NextPicks;
  }

  /** The picks that stay when slot p is picked next. */
  ghost function PicksStaying(slots: seq<Slot>, v: View, p: nat): seq<int>
    requires p < |slots|
  {
    if NextAttempt(slots, v.cur, p) == v.cur.attempt then v.tmp else []
  }

  lemma {:induction false} PicksOneMore(slots: seq<Slot>, v: View, p: nat)
    requires p < |slots|
    ensures Elements(NextPicks(slots, v, p)) == Elements(PicksStaying(slots, v, p)) + {p}
  {
    var picks := NextPicks(slots, v, p);
    assert picks == PicksStaying(slots, v, p) + [p];
    forall x
      ensures x in picks <==> x in PicksStaying(slots, v, p) || x == p
    {
      assert picks[|picks| - 1] == p;
    }
  }

  /** What stays recorded is exact for the picks that stay. */
  lemma {:induction false} KeptIsExact(slots: seq<Slot>, init: seq<int>, ppn: nat, v: View, p: nat, at: nat)
    requires Filling(slots, init, ppn, v) && Exact(slots, v) && PickStep(slots, init, ppn, v, p, at)
    requires SortedByTime(slots, v.cpus) && |v.cpus| == Base(|v.nodes|, ppn) + |v.tmp|
    requires NextAttempt(slots, v.cur, p) == v.cur.attempt || NoneEarlier(slots, v)
    ensures var kept, given := Kept(slots, ppn, v, p), AllGiven(v.takes);
            && Indexes(slots, kept) && Distinct(kept) && p !in kept && p !in given
            && Elements(kept) == given + Elements(PicksStaying(slots, v, p)) && GivenFirst(slots, kept, given)
  {
    hide Given, AllGiven, Base, FirstCandidate, GivenFirst, InPlace, Filling, SortedByTime, NoneEarlier, Precedes, NoCandidate;
    PickIsNew(slots, init, ppn, v, p);
    var given := AllGiven(v.takes);
    assert p !in Elements(v.cpus);
    if NextAttempt(slots, v.cur, p) != v.cur.attempt {
      SwitchKeepsIff(slots, init, ppn, v);
      GivenFirstPrefix(slots, v.cpus, given, Base(|v.nodes|, ppn));
    }
  }

  lemma {:induction false} GivenFirstPrefix(slots: seq<Slot>, cpus: seq<int>, given: set<int>, n: nat)
    requires Indexes(slots, cpus) && GivenFirst(slots, cpus, given) && n <= |cpus|
    ensures GivenFirst(slots, cpus[..n], given)
  {
  }

  lemma {:induction false} KeptIsSorted(slots: seq<Slot>, ppn: nat, v: View, p: nat)
    requires p < |slots| && Base(|v.nodes|, ppn) <= |v.cpus| && Indexes(slots, v.cpus) && SortedByTime(slots, v.cpus)
    ensures Indexes(slots, Kept(slots, ppn, v, p)) && SortedByTime(slots, Kept(slots, ppn, v, p))
    ensures Distinct(v.cpus) ==> Distinct(Kept(slots, ppn, v, p))
  {
  }

  /** A switch while some slot is earlier than a given one loses a given slot. */
  lemma {:induction false} SwitchLoses(slots: seq<Slot>, init: seq<int>, ppn: nat, v: View, p: nat, at: nat)
    requires Filling(slots, init, ppn, v) && Exact(slots, v) && PickStep(slots, init, ppn, v, p, at)
    requires SortedByTime(slots, v.cpus) && |v.cpus| == Base(|v.nodes|, ppn) + |v.tmp|
    requires NextAttempt(slots, v.cur, p) != v.cur.attempt && !NoneEarlier(slots, v)
    ensures Lossy(AfterPick(slots, ppn, v, p, at))
  {
    hide Given, AllGiven, Base, FirstCandidate, GivenFirst, InPlace, NoneEarlier;
    PickIsNew(slots, init, ppn, v, p);
    SwitchKeepsIff(slots, init, ppn, v);
    GivenCounts(slots, init, ppn, v.nodes, v.latest, v.takes, 0);
    PrefixElements(v.cpus, Base(|v.nodes|, ppn));
    var kept, given := Kept(slots, ppn, v, p), AllGiven(v.takes);
    if given <= Elements(kept) {
      SetsOfOneSize(given, Elements(kept));
    }
    var g :| g in given && g !in Elements(kept);
    InsertedFrom(kept, at, p);
    assert g !in AfterPick(slots, ppn, v, p, at).cpus;
  }

  /** What is lost is never picked again. */
  lemma {:induction false} LossStays(slots: seq<Slot>, init: seq<int>, ppn: nat, v: View, p: nat, at: nat)
    requires Filling(slots, init, ppn, v) && Lossy(v) && PickStep(slots, init, ppn, v, p, at)
    ensures Lossy(AfterPick(slots, ppn, v, p, at))
  {
    hide Given, AllGiven, Base, FirstCandidate, InPlace;
    PickIsNew(slots, init, ppn, v, p);
    var g :| g in AllGiven(v.takes) && g !in v.cpus;
    InsertedFrom(Kept(slots, ppn, v, p), at, p);
    assert g !in AfterPick(slots, ppn, v, p, at).cpus;
  }

  lemma {:induction false} CommitKeepsRecord(slots: seq<Slot>, v: View, marks': seq<int>)
    requires v.cpus != [] && 0 <= v.cpus[|v.cpus| - 1] < |slots|
    requires AllGiven(AfterCommit(slots, v, marks').takes) == AllGiven(v.takes) + Elements(v.tmp)
    ensures Exact(slots, v) ==> Exact(slots, AfterCommit(slots, v, marks'))
    ensures Lossy(v) ==> Lossy(AfterCommit(slots, v, marks'))
  {
    hide AllGiven;
    if Exact(slots, v) {
      assert forall a :: 0 <= a < |v.cpus| ==> v.cpus[a] in Elements(v.cpus);
    }
  }

  /** Requests that never lose a slot: for one node, for one CPU per node, and for two CPUs per node without exceptions. */
  ghost predicate SafeShape(init: seq<int>, ppn: nat, numNodes: nat) {
    numNodes == 1 || ppn == 1 || (ppn == 2 && NoException(init))
  }

  lemma {:induction false} SafeShapeKeeps(slots: seq<Slot>, init: seq<int>, ppn: nat, numNodes: nat, v: View, p: nat)
    requires Filling(slots, init, ppn, v) && Ranked(slots, v) && SafeShape(init, ppn, numNodes)
    requires Paced(slots, init, ppn, v)
    requires |v.tmp| < ppn && |v.nodes| < numNodes && p < |slots|
    ensures NextAttempt(slots, v.cur, p) == v.cur.attempt || NoneEarlier(slots, v)
  {
    hide Frontmost, PickedOrGiven, FewStale, NoneToSpare, EndsBehind;
    if numNodes == 1 {
      assert AllGiven(v.takes) == {};
    } else if ppn == 2 && v.cur.considered.Some? {
      hide Given, AllGiven, Filling;
      FillingNumbers(slots, init, ppn, v);
      assert v.tmp == [v.f];
      FrontIsBehind(slots, init, v);
      assert forall g :: g in AllGiven(v.takes) ==> g in v.ever;
    }
  }

  lemma {:induction false} FrontIsBehind(slots: seq<Slot>, init: seq<int>, v: View)
    requires |init| == |slots| && Frontmost(slots, init, v)
    ensures forall x :: x in v.ever ==> 0 <= x < |slots| && 0 <= v.f < |slots| && slots[x].time <= slots[v.f].time
  {
  }

  // ----- the state of the loop

  /** What holds after every pick, also of one that completes a node, whatever nodes the job is fixed to. */
  ghost predicate Sound(slots: seq<Slot>, init: seq<int>, ppn: nat, v: View) {
    && |init| == |slots|
    && Filling(slots, init, ppn, v) && Ranked(slots, v) && MarksOf(init, v.marks) && InitialMarks(init)
    && UsableSlots(slots, init, v.cpus) && |v.cpus| == Base(|v.nodes|, ppn) + |v.tmp| && |v.tmp| <= ppn
    && Paced(slots, init, ppn, v)
  }

  ghost predicate Core(slots: seq<Slot>, init: seq<int>, ppn: nat, fixedNames: seq<Option<int>>, v: View) {
    && Sound(slots, init, ppn, v) && |v.nodes| <= |fixedNames|
    && Honoured(slots, init, v.marks, fixedNames, v.nodes) && NothingEarlier(slots, init, ppn, fixedNames, v)
    && (SafeShape(init, ppn, |fixedNames|) ==> Exact(slots, v))
  }

  ghost predicate Selecting(slots: seq<Slot>, init: seq<int>, ppn: nat, fixedNames: seq<Option<int>>, v: View) {
    && Core(slots, init, ppn, fixedNames, v)
    && |v.tmp| < ppn && (|v.nodes| == |fixedNames| ==> v.tmp == [])
    && (v.nodes != [] && v.tmp == [] ==> v.cpus != [] && 0 <= v.cpus[|v.cpus| - 1] < |slots| && v.start == slots[v.cpus[|v.cpus| - 1]].time)
    && (|v.nodes| == |fixedNames| ==> NotBefore(slots, init, ppn, fixedNames, v.start))
    && (|v.nodes| == |fixedNames| && (NoException(init) || |fixedNames| == 1) ==> CanStart(slots, init, ppn, fixedNames, v.start))
    && (|v.nodes| == |fixedNames| ==> ExceptedBefore(slots, init, v.takes, v.start))
  }

  ghost predicate NotBefore(slots: seq<Slot>, init: seq<int>, ppn: nat, fixedNames: seq<Option<int>>, start: int)
    requires |init| == |slots|
  {
    forall t :: t < start ==> !CanStart(slots, init, ppn, fixedNames, t)
  }

  /** Slots given by the memory exception are idle before the start. */
  ghost predicate ExceptedBefore(slots: seq<Slot>, init: seq<int>, takes: seq<set<int>>, start: int)
    requires |init| == |slots|
  {
    forall x :: x in AllGiven(takes) ==> 0 <= x < |slots| && (init[x] == NOT_NOW ==> slots[x].time < start)
  }

  lemma {:induction false} SoundBegins(slots: seq<Slot>, init: seq<int>, ppn: nat)
    requires |init| == |slots| && InitialMarks(init) && ppn >= 1
    ensures Sound(slots, init, ppn, Begin(init)) && Exact(slots, Begin(init))
  {
    assert Current(init, 1) == {} == Elements([]);
    forall node
      ensures FewStale(slots, Begin(init), node, ppn)
    {
      assert Picked(slots, init, node) == {};
    }
  }

  lemma {:induction false} SelectingBegins(slots: seq<Slot>, init: seq<int>, ppn: nat, fixedNames: seq<Option<int>>)
    requires |init| == |slots| && InitialMarks(init) && ppn >= 1 && fixedNames != []
    requires None !in fixedNames ==> Confined(slots, init, multiset(fixedNames))
    ensures Selecting(slots, init, ppn, fixedNames, Begin(init))
  {
    hide Confined, Sound, Exact, Honoured;
    SoundBegins(slots, init, ppn);
    HonouredBegins(slots, init, fixedNames);
  }

  lemma {:induction false} UsablePick(slots: seq<Slot>, init: seq<int>, ppn: nat, v: View, p: nat, at: nat)
    requires |init| == |slots| && UsableSlots(slots, init, v.cpus) && PickStep(slots, init, ppn, v, p, at) && IsFresh(init[p])
    ensures UsableSlots(slots, init, AfterPick(slots, ppn, v, p, at).cpus)
  {
    hide FirstCandidate, Base, InPlace;
    var kept := Kept(slots, ppn, v, p);
    assert kept == v.cpus[..|kept|];
    UsablePrefix(slots, init, v.cpus, |kept|);
    SortedInsert(slots, kept, at, p);
    UsableInsert(slots, init, kept, at, p);
  }

  lemma {:induction false} SoundPick(slots: seq<Slot>, init: seq<int>, ppn: nat, v: View, p: nat, at: nat)
    requires Sound(slots, init, ppn, v) && |v.tmp| < ppn && PickStep(slots, init, ppn, v, p, at)
    ensures Sound(slots, init, ppn, AfterPick(slots, ppn, v, p, at))
    ensures v.marks[p] == 0 || v.ever != {}
  {
    hide Filling, Ranked, Paced, MarksOf, InitialMarks, NoException, FirstCandidate, InPlace, Base, UsableSlots;
    FillingNumbers(slots, init, ppn, v);
    UsableMeans(slots, init, v.cpus);
    FillingPick(slots, init, ppn, v, p, at);
    RankedPick(slots, init, ppn, v, p, at);
    MarksOfPick(slots, init, v.marks, v.cur, p, NextAttempt(slots, v.cur, p));
    UsablePick(slots, init, ppn, v, p, at);
    PacedPick(slots, init, ppn, v, p, at);
  }

  lemma {:induction false} CorePick(slots: seq<Slot>, init: seq<int>, ppn: nat, fixedNames: seq<Option<int>>, v: View, p: nat, at: nat)
    requires Core(slots, init, ppn, fixedNames, v) && |v.tmp| < ppn && |v.nodes| < |fixedNames|
    requires PickStep(slots, init, ppn, v, p, at)
    ensures Core(slots, init, ppn, fixedNames, AfterPick(slots, ppn, v, p, at))
    ensures Open(fixedNames, v.nodes, slots[p].node)
  {
    SoundPick(slots, init, ppn, v, p, at);
    hide Filling, Ranked, Paced, Exact, Honoured, MarksOf, InitialMarks, SafeShape, NoException, FirstCandidate, InPlace, Base, UsableSlots,
         PlacesLeft;
    FillingNumbers(slots, init, ppn, v);
    UsableMeans(slots, init, v.cpus);
    HonouredPick(slots, init, v.marks, fixedNames, v.nodes, v.cur, p, NextAttempt(slots, v.cur, p));
    PickIsLeast(slots, init, ppn, fixedNames, v, p, at);
    if SafeShape(init, ppn, |fixedNames|) {
      SafeShapeKeeps(slots, init, ppn, |fixedNames|, v, p);
      PickKeepsExact(slots, init, ppn, v, p, at);
    }
  }

  lemma {:induction false} SoundCommit(slots: seq<Slot>, init: seq<int>, ppn: nat, v: View, usedUp: bool, marks': seq<int>)
    requires Sound(slots, init, ppn, v) && |v.tmp| == ppn > 0 && v.cur.considered.Some?
    requires Commits(slots, v.marks, v.tmp, v.cur.considered.value, usedUp, marks')
    ensures v.cpus != [] && 0 <= v.cpus[|v.cpus| - 1] < |slots|
    ensures Sound(slots, init, ppn, AfterCommit(slots, v, marks'))
    ensures AllGiven(AfterCommit(slots, v, marks').takes) == AllGiven(v.takes) + Elements(v.tmp)
  {
    hide Filling, Ranked, Paced, MarksOf, InitialMarks, NoException, Base, UsableSlots, Commits, AllGiven;
    UsableMeans(slots, init, v.cpus);
    NextBase(|v.nodes|, ppn);
    FillingCommit(slots, init, ppn, v, usedUp, marks');
    RankedCommit(slots, init, ppn, v, usedUp, marks');
    CommitsWithdraws(slots, v.marks, v.tmp, v.cur.considered.value, usedUp, marks');
    MarksOfWithdrawn(init, v.marks, marks');
    PacedCommit(slots, init, ppn, v, usedUp, marks');
  }

  lemma {:induction false} CoreCommit(slots: seq<Slot>, init: seq<int>, ppn: nat, fixedNames: seq<Option<int>>, v: View, marks': seq<int>)
    requires Core(slots, init, ppn, fixedNames, v) && |v.tmp| == ppn > 0 && |v.nodes| < |fixedNames| && v.cur.considered.Some?
    requires Commits(slots, v.marks, v.tmp, v.cur.considered.value, UsedUp(fixedNames, v.nodes, v.cur.considered.value), marks')
    requires Open(fixedNames, v.nodes, v.cur.considered.value)
    ensures v.cpus != [] && 0 <= v.cpus[|v.cpus| - 1] < |slots|
    ensures Core(slots, init, ppn, fixedNames, AfterCommit(slots, v, marks'))
    ensures AllGiven(AfterCommit(slots, v, marks').takes) == AllGiven(v.takes) + Elements(v.tmp)
  {
    hide Sound, Exact, Honoured, SafeShape, Open, UsedUp, Commits, AllGiven, CanStart;
    SoundCommit(slots, init, ppn, v, UsedUp(fixedNames, v.nodes, v.cur.considered.value), marks');
    HonouredCommit(slots, init, v.marks, fixedNames, v.nodes, v.tmp, v.cur.considered.value, marks');
    CommitKeepsRecord(slots, v, marks');
  }

  /** No start is earlier than the one that the last commit sets, and without exceptions, or on one node, the job can have its slots then. */
  lemma {:induction false} LastCommitIsLeast(slots: seq<Slot>, init: seq<int>, ppn: nat, fixedNames: seq<Option<int>>, v: View, w: View)
    requires Core(slots, init, ppn, fixedNames, v) && |v.tmp| == ppn > 0 && |v.nodes| + 1 == |fixedNames|
    requires v.cpus != [] && 0 <= v.cpus[|v.cpus| - 1] < |slots|
    requires w == AfterCommit(slots, v, w.marks) && Core(slots, init, ppn, fixedNames, w)
    ensures NotBefore(slots, init, ppn, fixedNames, w.start) && ExceptedBefore(slots, init, w.takes, w.start)
    ensures NoException(init) || |fixedNames| == 1 ==> CanStart(slots, init, ppn, fixedNames, w.start)
  {
    hide MarksOf, InitialMarks, SafeShape, Base, UsableSlots, Given, AllGiven, Exact, Honoured, CanStart, FewStale, PickedOrGiven, NoneToSpare,
         NoException, Confined;
    HonouredEnds(slots, init, w.marks, fixedNames, w.nodes);
    FrontIsLatest(slots, init, ppn, w);
    assert forall x :: x in AllGiven(w.takes) ==> EndsBehind(slots, w.cpus, x);
    if |fixedNames| == 1 {
      OneNodeBelowFront(slots, init, ppn, w);
    }
    if NoException(init) || |fixedNames| == 1 {
      GivenSuffice(slots, init, ppn, fixedNames, w, w.start);
    }
  }

  lemma {:induction false} FrontIsLatest(slots: seq<Slot>, init: seq<int>, ppn: nat, v: View)
    requires Ranked(slots, v) && Paced(slots, init, ppn, v) && v.tmp == [] && v.cpus != [] && 0 <= v.cpus[|v.cpus| - 1] < |slots|
    ensures 0 <= v.f < |slots| && v.f in v.ever && slots[v.cpus[|v.cpus| - 1]].time == slots[v.f].time
  {
    hide AllGiven, FewStale, PickedOrGiven, NoneToSpare;
    assert v.cpus[|v.cpus| - 1] in v.ever;
    assert EndsBehind(slots, v.cpus, v.f);
  }

  lemma {:induction false} SelectingCommits(slots: seq<Slot>, init: seq<int>, ppn: nat, fixedNames: seq<Option<int>>, v: View, marks': seq<int>)
    requires Core(slots, init, ppn, fixedNames, v) && |v.tmp| == ppn > 0 && |v.nodes| < |fixedNames| && v.cur.considered.Some?
    requires Commits(slots, v.marks, v.tmp, v.cur.considered.value, UsedUp(fixedNames, v.nodes, v.cur.considered.value), marks')
    requires Open(fixedNames, v.nodes, v.cur.considered.value)
    ensures v.cpus != [] && 0 <= v.cpus[|v.cpus| - 1] < |slots|
    ensures Selecting(slots, init, ppn, fixedNames, AfterCommit(slots, v, marks'))
  {
    hide Core, NotBefore, ExceptedBefore, CanStart, NoException, Commits, Open, UsedUp, AllGiven;
    CoreCommit(slots, init, ppn, fixedNames, v, marks');
    if |v.nodes| + 1 == |fixedNames| {
      LastCommitIsLeast(slots, init, ppn, fixedNames, v, AfterCommit(slots, v, marks'));
    }
  }

  lemma {:induction false} SelectingStuck(slots: seq<Slot>, init: seq<int>, ppn: nat, fixedNames: seq<Option<int>>, v: View)
    requires Selecting(slots, init, ppn, fixedNames, v) && |v.nodes| < |fixedNames|
    requires |v.marks| == |slots| && v.cur.Valid(|slots|) && NoCandidate(slots, v.marks, v.cur)
    ensures forall t :: !CanStart(slots, init, ppn, fixedNames, t)
  {
    hide Filling, Ranked, Paced, Exact, Honoured, MarksOf, SafeShape, Base, UsableSlots, CanStart, NoCandidate, NoException;
    forall t
      ensures !CanStart(slots, init, ppn, fixedNames, t)
    {
      StuckCannotStart(slots, init, ppn, fixedNames, v, t);
    }
  }

  // ----- the selection

  /** What the selection leaves in the job record. */
  datatype Selection = Selection(start: int, nodes: seq<Option<int>>, latest: seq<int>, cpuIndexes: seq<int>)

  /** The run has completed all nodes of the job, and leaves this in its record. */
  ghost predicate EndsWith(run: seq<View>, fixedNames: seq<Option<int>>, sel: Selection) {
    && run != []
    && var end := run[|run| - 1];
       |end.nodes| == |fixedNames| && end.tmp == [] && sel == Selection(end.start, end.nodes, end.latest, end.cpus)
  }

  /** A run of the loop ends with the selection. */
  ghost predicate RunsTo(slots: seq<Slot>, init: seq<int>, ppn: nat, fixedNames: seq<Option<int>>, sel: Selection) {
    exists run :: LoopRun(slots, init, ppn, fixedNames, run) && EndsWith(run, fixedNames, sel)
  }

  /** Slots that the nodes have given; all of them are free at the start, and they are the recorded ones when none can get lost. */
  ghost predicate TakenBy(slots: seq<Slot>, init: seq<int>, ppn: nat, sel: Selection, takes: seq<set<int>>)
    requires |init| == |slots|
  {
    && Given(slots, init, ppn, sel.nodes, sel.latest, takes)
    && (forall x :: x in AllGiven(takes) ==> 0 <= x < |slots| && slots[x].time <= sel.start)
    && ExceptedBefore(slots, init, takes, sel.start)
    && (SafeShape(init, ppn, |sel.nodes|) ==> Elements(sel.cpuIndexes) == AllGiven(takes))
  }

  /**
   What every successful selection has: usable slots in the order of times, a start
   when the latest one is free, nodes that have each given slots of their own, and
   a start that is no later than any instant with slots for all places; for one
   node, and when no slot depends on the memory exception, the least such instant.
   */
  ghost predicate Selected(slots: seq<Slot>, init: seq<int>, ppn: nat, fixedNames: seq<Option<int>>, sel: Selection)
    requires |init| == |slots|
  {
    && |sel.cpuIndexes| == Base(|fixedNames|, ppn) > 0 && |sel.nodes| == |sel.latest| == |fixedNames|
    && UsableSlots(slots, init, sel.cpuIndexes)
    && sel.start == slots[sel.cpuIndexes[|sel.cpuIndexes| - 1]].time
    && (exists takes :: TakenBy(slots, init, ppn, sel, takes))
    && (None !in fixedNames ==> multiset(sel.nodes) == multiset(fixedNames))
    && (SafeShape(init, ppn, |fixedNames|) ==> Distinct(sel.cpuIndexes))
    && NotBefore(slots, init, ppn, fixedNames, sel.start)
    && (NoException(init) || |fixedNames| == 1 ==> LeastFit(slots, init, ppn, fixedNames, sel.start))
  }

  lemma {:induction false} SelectingEnds(slots: seq<Slot>, init: seq<int>, ppn: nat, fixedNames: seq<Option<int>>, v: View)
    requires Selecting(slots, init, ppn, fixedNames, v) && |v.nodes| == |fixedNames| >= 1 && ppn >= 1
    ensures Selected(slots, init, ppn, fixedNames, Selection(v.start, v.nodes, v.latest, v.cpus))
  {
    hide Given, AllGiven, Paced, CanStart, Honoured, MarksOf, InitialMarks, SafeShape, NoException, ExceptedBefore;
    var sel := Selection(v.start, v.nodes, v.latest, v.cpus);
    HonouredEnds(slots, init, v.marks, fixedNames, v.nodes);
    assert forall x :: x in AllGiven(v.takes) ==> EndsBehind(slots, v.cpus, x);
    assert AllGiven(v.takes) + Elements([]) == AllGiven(v.takes);
    assert TakenBy(slots, init, ppn, sel, v.takes);
    BaseMonotone(1, |fixedNames|, ppn);
    assert Base(1, ppn) == ppn;
    GivenCounts(slots, init, ppn, v.nodes, v.latest, v.takes, 0);
  }

  lemma {:induction false} SelectingIsOver(slots: seq<Slot>, init: seq<int>, ppn: nat, fixedNames: seq<Option<int>>, v: View)
    requires Selecting(slots, init, ppn, fixedNames, v) && |v.cpus| == Base(|fixedNames|, ppn)
    ensures |v.nodes| == |fixedNames| && v.tmp == []
  {
    hide Sound, Honoured, Exact, CanStart, SafeShape;
    SelectingNumbers(slots, init, ppn, fixedNames, v);
  }

  /** The numbers that index the arrays of the loop. */
  lemma {:induction false} SelectingNumbers(slots: seq<Slot>, init: seq<int>, ppn: nat, fixedNames: seq<Option<int>>, v: View)
    requires Selecting(slots, init, ppn, fixedNames, v)
    ensures |v.marks| == |slots| == |init| && v.cur.Valid(|slots|) && v.cur.attempt >= 1
    ensures |v.cpus| == Base(|v.nodes|, ppn) + |v.tmp| && |v.tmp| < ppn && |v.nodes| <= |fixedNames|
    ensures |v.nodes| < |fixedNames| ==> |v.cpus| < Base(|v.nodes|, ppn) + ppn <= Base(|fixedNames|, ppn)
    ensures |v.nodes| == |fixedNames| ==> |v.cpus| == Base(|fixedNames|, ppn)
    ensures MarksOf(init, v.marks) && InitialMarks(init)
    ensures Indexes(slots, v.cpus) && SortedByTime(slots, v.cpus)
    ensures forall x :: x in v.tmp ==> 0 <= x < |slots|
  {
    hide Given, AllGiven, Ranked, Paced, Exact, MarksOf, InitialMarks, CanStart;
    if |v.nodes| < |fixedNames| {
      NextBase(|v.nodes|, ppn);
      BaseMonotone(|v.nodes| + 1, |fixedNames|, ppn);
    }
  }

  /** One pick: marks the slot, turns to its node, and records it in the order of times. */
  method PickSlot(base: nat, slots: seq<Slot>, avail: array<int>, cpuIndexes: array<int>, cur: Cursor, jobCpu: nat,
                  ghost init: seq<int>, ghost ppn: nat, ghost v: View)
    returns (cpu: int, cur': Cursor, jobCpu': nat, ghost at: nat)
    requires avail.Length == |slots| == |init| && avail != cpuIndexes && cur.Valid(|slots|)
    requires base == Base(|v.nodes|, ppn) <= jobCpu < cpuIndexes.Length
    requires v.marks == avail[..] && v.cpus == cpuIndexes[..jobCpu] && v.cur == cur
    requires InitialMarks(init) && MarksOf(init, v.marks) && Indexes(slots, v.cpus) && SortedByTime(slots, v.cpus)
    modifies avail, cpuIndexes
    ensures cpu == -1 ==> NoCandidate(slots, v.marks, cur)
    ensures cpu != -1 ==> 0 <= cpu < |slots| && at <= |Kept(slots, ppn, v, cpu)| && PickStep(slots, init, ppn, v, cpu, at)
    ensures cpu != -1 ==>
              var u := AfterPick(slots, ppn, v, cpu, at);
              avail[..] == u.marks && cur' == u.cur && base <= jobCpu' < cpuIndexes.Length && cpuIndexes[..jobCpu' + 1] == u.cpus
  {
    hide MarksOf, InitialMarks, FirstCandidate, NoCandidate, SortedByTime;
    MarksNotMinusFive(init, v.marks);
    cpu := IthSmallest(slots, avail, cur);
    cur', jobCpu', at := cur, jobCpu, 0;
    if cpu == -1 {
      return;
    }
    FirstCandidateIndex(slots, v.marks, cur, cpu);
    if cur.considered.Some? && cur.considered.value != slots[cpu].node {
      jobCpu' := base;
      cur' := cur'.(attempt := cur.attempt + 1);
      avail[cpu] := cur'.attempt;
    }
    assert avail[..] == v.marks[cpu := cur'.attempt];
    ghost var was := cpuIndexes[..jobCpu'];
    assert was == Kept(slots, ppn, v, cpu);
    KeptIsSorted(slots, ppn, v, cpu);
    at := InsertIndex(slots, cpuIndexes, jobCpu', cpu);
    cur' := cur'.(considered := Some(slots[cpu].node),
                  nodeLatest := Later(slots, cur.nodeLatest, cpu),
                  totalLatest := Later(slots, cur.totalLatest, cpu));
  }

  /** The places marked as free are those that are left. */
  ghost predicate CountsPlaces(fixedNames: seq<Option<int>>, free: seq<bool>, nodes: seq<Option<int>>) {
    |free| == |fixedNames| && (None !in fixedNames ==> FreePlaces(fixedNames, free) == PlacesLeft(fixedNames, nodes))
  }

  lemma {:induction false} AllPlacesFree(fixedNames: seq<Option<int>>, free: seq<bool>)
    requires |free| == |fixedNames| && forall k :: 0 <= k < |free| ==> free[k]
    ensures FreePlaces(fixedNames, free) == multiset(fixedNames)
  {
    if free != [] {
      var l := |free| - 1;
      AllPlacesFree(fixedNames[..l], free[..l]);
      assert fixedNames == fixedNames[..l] + [fixedNames[l]];
    }
  }

  lemma {:induction false} CountingBegins(fixedNames: seq<Option<int>>, free: seq<bool>)
    requires |free| == |fixedNames| && forall k :: 0 <= k < |free| ==> free[k]
    ensures CountsPlaces(fixedNames, free, [])
  {
    AllPlacesFree(fixedNames, free);
    assert PlacesLeft(fixedNames, []) == multiset(fixedNames);
  }

  /** Completes the node of the slot just picked. */
  method CompleteNode(slots: seq<Slot>, avail: array<int>, tmpCpus: array<int>, fixedNames: seq<Option<int>>,
                      nodePpnFree: array<bool>, cpu: nat, wipe: bool, ghost init: seq<int>, ghost ppn: nat, ghost u: View)
    requires avail.Length == |slots| && avail != tmpCpus && cpu < |slots|
    requires Core(slots, init, ppn, fixedNames, u) && |u.tmp| == ppn > 0 && |u.nodes| < |fixedNames|
    requires avail[..] == u.marks && tmpCpus[..] == u.tmp && u.cur.considered == Some(slots[cpu].node)
    requires CountsPlaces(fixedNames, nodePpnFree[..], u.nodes) && Open(fixedNames, u.nodes, slots[cpu].node)
    requires wipe <==> None in fixedNames
    modifies avail, nodePpnFree
    ensures Commits(slots, u.marks, u.tmp, slots[cpu].node, UsedUp(fixedNames, u.nodes, slots[cpu].node), avail[..])
    ensures u.cpus != [] && 0 <= u.cpus[|u.cpus| - 1] < |slots|
    ensures Selecting(slots, init, ppn, fixedNames, AfterCommit(slots, u, avail[..]))
    ensures CountsPlaces(fixedNames, nodePpnFree[..], u.nodes + [Some(slots[cpu].node)])
  {
    hide Selecting, Core, FreePlaces, Commits, PlacesLeft;
    ghost var free := nodePpnFree[..];
    CorePicksAreSlots(slots, init, ppn, fixedNames, u);
    assert forall a :: 0 <= a < tmpCpus.Length ==> tmpCpus[a] in tmpCpus[..];
    ghost var usedUp := CommitNode(slots, avail, tmpCpus, fixedNames, nodePpnFree, slots[cpu].node, wipe);
    PlaceTaken(fixedNames, u.nodes, slots[cpu].node);
    assert !wipe ==> FreePlaces(fixedNames, nodePpnFree[..]) == FreePlaces(fixedNames, free) - multiset{Some(slots[cpu].node)};
    assert usedUp == UsedUp(fixedNames, u.nodes, slots[cpu].node);
    SelectingCommits(slots, init, ppn, fixedNames, u, avail[..]);
  }

  lemma {:induction false} CorePicksAreSlots(slots: seq<Slot>, init: seq<int>, ppn: nat, fixedNames: seq<Option<int>>, u: View)
    requires Core(slots, init, ppn, fixedNames, u)
    ensures forall x :: x in u.tmp ==> 0 <= x < |slots|
  {
    hide Given, AllGiven, Ranked, Paced, Exact, MarksOf, InitialMarks;
  }

  /** One turn of the loop extends the run. */
  lemma {:induction false} RunExtends(slots: seq<Slot>, init: seq<int>, ppn: nat, fixedNames: seq<Option<int>>, run: seq<View>, p: nat, at: nat, w: View)
    requires LoopRun(slots, init, ppn, fixedNames, run) && StepBy(slots, init, ppn, fixedNames, run[|run| - 1], p, at, w)
    ensures LoopRun(slots, init, ppn, fixedNames, run + [w])
  {
    hide StepBy;
    RunGrows(slots, init, ppn, fixedNames, run, w);
  }

  lemma {:induction false} RunGrows(slots: seq<Slot>, init: seq<int>, ppn: nat, fixedNames: seq<Option<int>>, run: seq<View>, w: View)
    requires LoopRun(slots, init, ppn, fixedNames, run) && LoopStep(slots, init, ppn, fixedNames, run[|run| - 1], w)
    ensures LoopRun(slots, init, ppn, fixedNames, run + [w])
  {
    hide LoopStep;
    var r := run + [w];
    forall i | 0 <= i < |r| - 1
      ensures LoopStep(slots, init, ppn, fixedNames, r[i], r[i + 1])
    {
      assert i < |run| - 1 ==> LoopStep(slots, init, ppn, fixedNames, run[i], run[i + 1]);
    }
  }

  lemma {:induction false} SelectingPicks(slots: seq<Slot>, init: seq<int>, ppn: nat, fixedNames: seq<Option<int>>, v: View, p: nat, at: nat)
    requires Selecting(slots, init, ppn, fixedNames, v) && |v.nodes| < |fixedNames| && PickStep(slots, init, ppn, v, p, at)
    ensures Core(slots, init, ppn, fixedNames, AfterPick(slots, ppn, v, p, at))
    ensures Open(fixedNames, v.nodes, slots[p].node)
    ensures var u := AfterPick(slots, ppn, v, p, at);
            && 1 <= |u.tmp| <= ppn && |u.cpus| == Base(|v.nodes|, ppn) + |u.tmp|
            && u.nodes == v.nodes && u.latest == v.latest && u.tmp == NextPicks(slots, v, p) && u.start == v.start && u.cur.considered == Some(slots[p].node)
            && 0 <= u.cpus[|u.cpus| - 1] < |slots|
            && (|u.tmp| < ppn ==> Selecting(slots, init, ppn, fixedNames, u))
  {
    CorePick(slots, init, ppn, fixedNames, v, p, at);
    hide Filling, Ranked, Paced, Exact, Honoured, MarksOf, InitialMarks, SafeShape, NoException, FirstCandidate, InPlace, Base, UsableSlots,
         PlacesLeft, CanStart;
    var u := AfterPick(slots, ppn, v, p, at);
    UsableMeans(slots, init, u.cpus);
  }

  lemma {:induction false} PicksStored(slots: seq<Slot>, v: View, p: nat, stored: seq<int>)
    requires p < |slots| && |v.tmp| <= |stored| && v.tmp == stored[..|v.tmp|] && |NextPicks(slots, v, p)| <= |stored|
    ensures |NextPicks(slots, v, p)| >= 1
    ensures var n := |NextPicks(slots, v, p)|; stored[n - 1 := p][..n] == NextPicks(slots, v, p)
  {
  }

  /**
   Selects the slots of a job for which usage == reqPpn * reqNumNodes: a run of the
   loop that ends with all nodes complete, or in a state where nothing can be picked.
   The selection fails only when no instant has slots for all places, and the start is
   no later than any that has; for one node, and when no slot depends on the memory
   exception, it is the least one, and the selection fails exactly when there is none.
   */
  method SelectSlots(ppn: nat, numNodes: nat, fixedNames: seq<Option<int>>, slots: seq<Slot>, avail: array<int>)
    returns (ok: bool, sel: Selection, ghost run: seq<View>)
    requires ppn >= 1 && numNodes >= 1 && |fixedNames| == numNodes
    requires avail.Length == |slots| && InitialMarks(avail[..])
    requires None !in fixedNames ==> Confined(slots, avail[..], multiset(fixedNames))
    modifies avail
    ensures LoopRun(slots, old(avail[..]), ppn, fixedNames, run)
    ensures ok ==> EndsWith(run, fixedNames, sel) && Selected(slots, old(avail[..]), ppn, fixedNames, sel)
    ensures !ok ==> forall t :: !CanStart(slots, old(avail[..]), ppn, fixedNames, t)
  {
    hide Selecting, Core, PickStep, UsableSlots, MarksOf, InitialMarks, FirstCandidate, NoCandidate, LoopRun, StepBy, CanStart,
         Fresh, Stale, Withdrawn, Selected, Base, Confined, Commits, AfterPick, NextPicks, Kept, FreePlaces, PlacesLeft, Open, UsedUp, CountsPlaces, SortedByTime,
         LoopStep, NoException;
    ghost var init := avail[..];
    var usage := Base(numNodes, ppn);
    var wipe := None in fixedNames;
    var nodePpnFree := new bool[numNodes](_ => true);
    var cpuIndexes := new int[usage](_ => -1);
    var nodes: seq<Option<int>>, latest: seq<int> := [], [];
    var tmpCpus := new int[ppn](_ => 0);
    var cur := Cursor(None, 1, -1, -1);
    var start, planNodes, jobCpu := -1, 0, 0;
    sel := Selection(-1, [], [], []);
    SelectingBegins(slots, init, ppn, fixedNames);
    CountingBegins(fixedNames, nodePpnFree[..]);
    ghost var v := Begin(init);
    run := [v];
    RunBegins(slots, init, ppn, fixedNames);
    while jobCpu < usage
      invariant 0 <= planNodes <= numNodes && 0 <= jobCpu <= usage
      invariant v.marks == avail[..] && v.cpus == cpuIndexes[..jobCpu]
      invariant v.nodes == nodes && v.latest == latest && |nodes| == planNodes
      invariant v.cur == cur && v.start == start
      invariant Selecting(slots, init, ppn, fixedNames, v)
      invariant |v.tmp| <= ppn && v.tmp == tmpCpus[..|v.tmp|]
      invariant run != [] && run[|run| - 1] == v && LoopRun(slots, init, ppn, fixedNames, run)
      invariant CountsPlaces(fixedNames, nodePpnFree[..], nodes)
      decreases Fresh(avail[..]), Stale(avail[..], cur.attempt)
    {
      SelectingNumbers(slots, init, ppn, fixedNames, v);
      NextBase(planNodes, ppn);
      var base := Base(planNodes, ppn);
      ghost var at;
      var cpu;
      cpu, cur, jobCpu, at := PickSlot(base, slots, avail, cpuIndexes, cur, jobCpu, init, ppn, v);
      if cpu == -1 {
        SelectingStuck(slots, init, ppn, fixedNames, v);
        return false, sel, run;
      }
      ghost var u := AfterPick(slots, ppn, v, cpu, at);
      SelectingPicks(slots, init, ppn, fixedNames, v, cpu, at);
      PicksStored(slots, v, cpu, tmpCpus[..]);
      tmpCpus[jobCpu - base] := cpu;
      if jobCpu + 1 == Base(planNodes + 1, ppn) {
        start := slots[cpuIndexes[jobCpu]].time;
        nodes := nodes + [cur.considered];
        latest := latest + [cur.nodeLatest];
        assert tmpCpus[..ppn] == tmpCpus[..];
        CompleteNode(slots, avail, tmpCpus, fixedNames, nodePpnFree, cpu, wipe, init, ppn, u);
        ghost var w := AfterCommit(slots, u, avail[..]);
        StepCommits(slots, init, ppn, fixedNames, v, cpu, at, w);
        RunExtends(slots, init, ppn, fixedNames, run, cpu, at, w);
        cur := cur.(considered := None, nodeLatest := -1);
        planNodes := planNodes + 1;
        v := w;
      } else {
        StepPicks(slots, init, ppn, fixedNames, v, cpu, at);
        RunExtends(slots, init, ppn, fixedNames, run, cpu, at, u);
        v := u;
      }
      run := run + [v];
      jobCpu := jobCpu + 1;
    }
    SelectingNumbers(slots, init, ppn, fixedNames, v);
    SelectingEnds(slots, init, ppn, fixedNames, v);
    assert cpuIndexes[..usage] == cpuIndexes[..];
    sel := Selection(start, nodes, latest, cpuIndexes[..]);
    SelectingIsOver(slots, init, ppn, fixedNames, v);
    ok := true;
  }

  lemma {:induction false} RunBegins(slots: seq<Slot>, init: seq<int>, ppn: nat, fixedNames: seq<Option<int>>)
    requires |init| == |slots|
    ensures LoopRun(slots, init, ppn, fixedNames, [Begin(init)])
  {
  }

  /** A turn that does not complete a node. */
  lemma {:induction false} StepPicks(slots: seq<Slot>, init: seq<int>, ppn: nat, fixedNames: seq<Option<int>>, v: View, p: nat, at: nat)
    requires |v.nodes| < |fixedNames|
    requires PickStep(slots, init, ppn, v, p, at) && |AfterPick(slots, ppn, v, p, at).tmp| < ppn && v.cur.attempt >= 1
    ensures var u := AfterPick(slots, ppn, v, p, at);
            && StepBy(slots, init, ppn, fixedNames, v, p, at, u)
            && (Fresh(u.marks) < Fresh(v.marks) || (Fresh(u.marks) == Fresh(v.marks) && Stale(u.marks, u.cur.attempt) < Stale(v.marks, v.cur.attempt)))
  {
    var u := AfterPick(slots, ppn, v, p, at);
    WithdrawnSelf(u.marks);
    PickDecreases(slots, v.marks, v.cur, p, u.cur.attempt, u.marks);
  }

  /** A turn that completes a node. */
  lemma {:induction false} StepCommits(slots: seq<Slot>, init: seq<int>, ppn: nat, fixedNames: seq<Option<int>>, v: View, p: nat, at: nat, w: View)
    requires |v.nodes| < |fixedNames|
    requires PickStep(slots, init, ppn, v, p, at) && |AfterPick(slots, ppn, v, p, at).tmp| == ppn && v.cur.attempt >= 1
    requires var u := AfterPick(slots, ppn, v, p, at);
             && 0 <= u.cpus[|u.cpus| - 1] < |slots|
             && Commits(slots, u.marks, u.tmp, slots[p].node, UsedUp(fixedNames, v.nodes, slots[p].node), w.marks)
             && w == AfterCommit(slots, u, w.marks)
    ensures StepBy(slots, init, ppn, fixedNames, v, p, at, w)
    ensures Fresh(w.marks) < Fresh(v.marks) || (Fresh(w.marks) == Fresh(v.marks) && Stale(w.marks, w.cur.attempt) < Stale(v.marks, v.cur.attempt))
  {
    hide UsedUp;
    var u := AfterPick(slots, ppn, v, p, at);
    CommitsWithdraws(slots, u.marks, u.tmp, slots[p].node, UsedUp(fixedNames, v.nodes, slots[p].node), w.marks);
    PickDecreases(slots, v.marks, v.cur, p, u.cur.attempt, w.marks);
  }

  // ----- every run

  /** One more turn keeps the state of the loop. */
  lemma {:induction false} SelectingStep(slots: seq<Slot>, init: seq<int>, ppn: nat, fixedNames: seq<Option<int>>, v: View, w: View)
    requires Selecting(slots, init, ppn, fixedNames, v) && LoopStep(slots, init, ppn, fixedNames, v, w)
    ensures Selecting(slots, init, ppn, fixedNames, w)
  {
    hide Selecting, Core, FirstCandidate, InPlace, Commits, UsedUp, Open, Base;
    SelectingNumbers(slots, init, ppn, fixedNames, v);
    var p: nat, at: nat :| StepBy(slots, init, ppn, fixedNames, v, p, at, w);
    SelectingPicks(slots, init, ppn, fixedNames, v, p, at);
    var u := AfterPick(slots, ppn, v, p, at);
    if |u.tmp| == ppn {
      SelectingCommits(slots, init, ppn, fixedNames, u, w.marks);
    }
  }

  lemma {:induction false} RunFront(slots: seq<Slot>, init: seq<int>, ppn: nat, fixedNames: seq<Option<int>>, run: seq<View>)
    requires LoopRun(slots, init, ppn, fixedNames, run) && |run| > 1
    ensures LoopRun(slots, init, ppn, fixedNames, run[..|run| - 1])
    ensures LoopStep(slots, init, ppn, fixedNames, run[|run| - 2], run[|run| - 1])
  {
    hide LoopStep;
    var r := run[..|run| - 1];
    forall i | 0 <= i < |r| - 1
      ensures LoopStep(slots, init, ppn, fixedNames, r[i], r[i + 1])
    {
      assert LoopStep(slots, init, ppn, fixedNames, run[i], run[i + 1]);
    }
  }

  lemma {:induction false} RunSelecting(slots: seq<Slot>, init: seq<int>, ppn: nat, fixedNames: seq<Option<int>>, run: seq<View>)
    requires LoopRun(slots, init, ppn, fixedNames, run) && InitialMarks(init) && ppn >= 1 && fixedNames != []
    requires None !in fixedNames ==> Confined(slots, init, multiset(fixedNames))
    ensures Selecting(slots, init, ppn, fixedNames, run[|run| - 1])
  {
    hide Selecting, Confined, InitialMarks;
    if |run| == 1 {
      SelectingBegins(slots, init, ppn, fixedNames);
    } else {
      RunFront(slots, init, ppn, fixedNames, run);
      hide LoopStep, LoopRun;
      RunSelecting(slots, init, ppn, fixedNames, run[..|run| - 1]);
      SelectingStep(slots, init, ppn, fixedNames, run[|run| - 2], run[|run| - 1]);
    }
  }

  /** Whatever a run ends with is a selection in full. */
  lemma {:induction false} RunIsSelected(slots: seq<Slot>, init: seq<int>, ppn: nat, fixedNames: seq<Option<int>>, run: seq<View>, sel: Selection)
    requires LoopRun(slots, init, ppn, fixedNames, run) && InitialMarks(init) && ppn >= 1 && fixedNames != []
    requires None !in fixedNames ==> Confined(slots, init, multiset(fixedNames))
    requires EndsWith(run, fixedNames, sel)
    ensures Selected(slots, init, ppn, fixedNames, sel)
  {
    RunSelecting(slots, init, ppn, fixedNames, run);
    hide Selecting, LoopRun, TakenBy, LeastFit;
    SelectingEnds(slots, init, ppn, fixedNames, run[|run| - 1]);
  }
}
