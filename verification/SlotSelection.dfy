/**
 Choosing the CPU slots of a job (plan_operations.cpp): the slots are taken one
 by one, earliest first, until one node has given as many as the job asks for
 per node; turning to another node abandons what the previous one has given.

 Marks of a slot: 0, free to be picked; a positive number, the attempt that
 picked it last; -4, fits only while a later slot is already picked; -6, taken
 for this job; every other negative number, out of the question.
 */
module SlotSelection {
  import opened PlanLists
  import opened PlanJobs

  /** When a CPU becomes free, and the node it belongs to (first_free_slot). */
  datatype Slot = Slot(time: int, node: int)

  const NOT_NOW: int := -4
  const TAKEN: int := -6
  const PROHIBITED: int := -7

  /** Where the selection stands: the node being filled, the attempt, and the latest slots picked. */
  datatype Cursor = Cursor(considered: Option<int>, attempt: int, nodeLatest: int, totalLatest: int) {
    predicate Valid(n: nat) {
      -1 <= nodeLatest < n && -1 <= totalLatest < n
    }
  }

  /** A slot without memory may still be picked below the latest slot picked so far. */
  predicate MemoryException(slots: seq<Slot>, i: nat, cur: Cursor)
    requires i < |slots| && cur.Valid(|slots|)
  {
    if cur.nodeLatest != -1 then
      && cur.considered == Some(slots[i].node)
      && slots[cur.nodeLatest].node == slots[i].node
      && slots[cur.nodeLatest].time > slots[i].time
    else
      cur.totalLatest != -1 && slots[cur.totalLatest].time > slots[i].time
  }

  predicate Candidate(slots: seq<Slot>, mark: int, i: nat, cur: Cursor)
    requires i < |slots| && cur.Valid(|slots|)
  {
    || mark == 0
    || (mark == NOT_NOW && MemoryException(slots, i, cur))
    || (0 < mark < cur.attempt && cur.considered == Some(slots[i].node))
  }

  /** Slot i comes before slot j: earlier, or as early with a smaller index. */
  predicate Precedes(slots: seq<Slot>, i: nat, j: nat)
    requires i < |slots| && j < |slots|
  {
    slots[i].time < slots[j].time || (slots[i].time == slots[j].time && i < j)
  }

  ghost predicate NoCandidate(slots: seq<Slot>, marks: seq<int>, cur: Cursor)
    requires |marks| == |slots| && cur.Valid(|slots|)
  {
    forall i :: 0 <= i < |slots| ==> !Candidate(slots, marks[i], i, cur)
  }

  /** The slot is the first of the earliest candidates. */
  ghost predicate FirstCandidate(slots: seq<Slot>, marks: seq<int>, cur: Cursor, p: int)
    requires |marks| == |slots| && cur.Valid(|slots|)
  {
    && 0 <= p < |slots| && Candidate(slots, marks[p], p, cur)
    && forall i :: 0 <= i < |slots| && i != p ==> Candidate(slots, marks[i], i, cur) ==> Precedes(slots, p, i)
  }

  /** A slot is found that is this one, or earlier, or as early and listed in front of it. */
  ghost predicate Found(slots: seq<Slot>, result: int, i: nat)
    requires i < |slots|
  {
    0 <= result < |slots| && (slots[result].time < slots[i].time || (slots[result].time == slots[i].time && result <= i))
  }

  /** Picks the first of the earliest candidates and marks it with the attempt. */
  method IthSmallest(slots: seq<Slot>, avail: array<int>, cur: Cursor) returns (result: int)
    requires avail.Length == |slots| && cur.Valid(|slots|)
    requires forall i :: 0 <= i < |slots| ==> avail[i] != -5
    modifies avail
    ensures if result == -1 then NoCandidate(slots, old(avail[..]), cur) && avail[..] == old(avail[..])
            else FirstCandidate(slots, old(avail[..]), cur, result) && avail[..] == old(avail[..])[result := cur.attempt]
    ensures forall i :: 0 <= i < |slots| && old(avail[i]) == 0 ==> Found(slots, result, i)
    ensures cur.nodeLatest != -1 && cur.considered == Some(slots[cur.nodeLatest].node) ==>
              forall i :: 0 <= i < |slots| && slots[i].node == slots[cur.nodeLatest].node ==> old(avail[i]) == NOT_NOW ==>
                slots[i].time < slots[cur.nodeLatest].time ==> Found(slots, result, i)
    ensures cur.nodeLatest == -1 && cur.totalLatest != -1 ==>
              forall i :: 0 <= i < |slots| && old(avail[i]) == NOT_NOW ==>
                slots[i].time < slots[cur.totalLatest].time ==> Found(slots, result, i)
  {
    ghost var marks := avail[..];
    result := -1;
    var min := 0;
    for i := 0 to |slots|
      invariant avail[..] == marks
      invariant -1 <= result < i
      invariant result >= 0 ==> min == slots[result].time
      invariant result == -1 ==> forall j :: 0 <= j < i ==> !Candidate(slots, marks[j], j, cur)
      invariant result >= 0 ==> Candidate(slots, marks[result], result, cur)
      invariant result >= 0 ==>
                  forall j :: 0 <= j < i && j != result ==> Candidate(slots, marks[j], j, cur) ==> Precedes(slots, result, j)
    {
      var possibleMin := slots[i].time;
      assert avail[i] == marks[i];
      if avail[i] == NOT_NOW && cur.nodeLatest != -1 && cur.considered == Some(slots[i].node) &&
         slots[cur.nodeLatest].node == slots[i].node && slots[cur.nodeLatest].time > slots[i].time {
        avail[i] := -5;
      }
      if avail[i] == NOT_NOW && cur.nodeLatest == -1 && cur.totalLatest != -1 &&
         slots[cur.totalLatest].time > slots[i].time {
        avail[i] := -5;
      }
      if (result == -1 || possibleMin < min) &&
         (avail[i] == 0 || avail[i] == -5 ||
          (avail[i] > 0 && avail[i] < cur.attempt && cur.considered == Some(slots[i].node))) {
        min := possibleMin;
        result := i;
      }
      if avail[i] == -5 {
        avail[i] := NOT_NOW;
      }
      assert avail[..] == marks;
    }
    if result == -1 {
      return;
    }
    avail[result] := cur.attempt;
  }

  // ----- termination of the selection loop

  predicate IsFresh(mark: int) {
    mark == 0 || mark == NOT_NOW
  }

  /** The slots that were never picked and may still be. */
  function Fresh(marks: seq<int>): nat {
    if marks == [] then 0
    else Fresh(marks[..|marks| - 1]) + if IsFresh(marks[|marks| - 1]) then 1 else 0
  }

  /** The slots that an earlier attempt has picked. */
  function Stale(marks: seq<int>, attempt: int): nat {
    if marks == [] then 0
    else Stale(marks[..|marks| - 1], attempt) + if 0 < marks[|marks| - 1] < attempt then 1 else 0
  }

  lemma {:induction false} CountsUpdate(marks: seq<int>, i: nat, v: int, attempt: int)
    requires i < |marks|
    ensures Fresh(marks[i := v]) == Fresh(marks) - (if IsFresh(marks[i]) then 1 else 0) + (if IsFresh(v) then 1 else 0)
    ensures Stale(marks[i := v], attempt) ==
            Stale(marks, attempt) - (if 0 < marks[i] < attempt then 1 else 0) + (if 0 < v < attempt then 1 else 0)
  {
    var l := |marks| - 1;
    if i == l {
      assert marks[i := v][..l] == marks[..l];
    } else {
      assert marks[i := v][..l] == marks[..l][i := v];
      CountsUpdate(marks[..l], i, v, attempt);
    }
  }

  /** Marks may be withdrawn from the selection, not returned to it. */
  ghost predicate Withdrawn(marks: seq<int>, marks': seq<int>) {
    && |marks'| == |marks|
    && forall i :: 0 <= i < |marks| ==> marks'[i] == marks[i] || marks'[i] == TAKEN || marks'[i] == PROHIBITED
  }

  lemma {:induction false} CountsWithdrawn(marks: seq<int>, marks': seq<int>, attempt: int)
    requires Withdrawn(marks, marks')
    ensures Fresh(marks') <= Fresh(marks) && Stale(marks', attempt) <= Stale(marks, attempt)
  {
    var l := |marks| - 1;
    if marks != [] {
      CountsWithdrawn(marks[..l], marks'[..l], attempt);
    }
  }

  /**
   Every pick uses up a slot never picked before, or one that an earlier attempt
   had picked: (Fresh, Stale) decreases lexicographically, whatever happens to
   the number of slots that are counted for the job.
   */
  lemma {:induction false} PickDecreases(slots: seq<Slot>, marks: seq<int>, cur: Cursor, p: int, attempt': int, marks': seq<int>)
    requires |marks| == |slots| && cur.Valid(|slots|) && cur.attempt >= 1
    requires FirstCandidate(slots, marks, cur, p)
    requires attempt' == if cur.considered.Some? && cur.considered.value != slots[p].node then cur.attempt + 1 else cur.attempt
    requires Withdrawn(marks[p := attempt'], marks')
    ensures Fresh(marks') < Fresh(marks) ||
            (Fresh(marks') == Fresh(marks) && Stale(marks', attempt') < Stale(marks, cur.attempt))
  {
    CountsUpdate(marks, p, attempt', attempt');
    CountsWithdrawn(marks[p := attempt'], marks', attempt');
  }

  // ----- the recorded indexes

  ghost predicate Indexes(slots: seq<Slot>, cpus: seq<int>) {
    forall a :: 0 <= a < |cpus| ==> 0 <= cpus[a] < |slots|
  }

  ghost predicate SortedByTime(slots: seq<Slot>, cpus: seq<int>)
    requires Indexes(slots, cpus)
  {
    forall a, b :: 0 <= a < b < |cpus| ==> slots[cpus[a]].time <= slots[cpus[b]].time
  }

  lemma {:induction false} SortedInsert(slots: seq<Slot>, cpus: seq<int>, k: nat, cpu: int)
    requires Indexes(slots, cpus) && SortedByTime(slots, cpus) && InPlace(slots, cpus, k, cpu)
    ensures Indexes(slots, Insert(cpus, k, cpu)) && SortedByTime(slots, Insert(cpus, k, cpu))
  {
    var r := Insert(cpus, k, cpu);
    assert forall a :: 0 <= a < |r| ==> r[a] == if a < k then cpus[a] else if a == k then cpu else cpus[a - 1];
    forall a, b | 0 <= a < b < |r|
      ensures slots[r[a]].time <= slots[r[b]].time
    {
      assert a < k ==> slots[cpus[a]].time <= slots[cpus[k - 1]].time;
      assert b > k ==> slots[cpus[k]].time <= slots[cpus[b - 1]].time;
    }
  }

  /** Behind all slots that are as early, in front of all later ones. */
  ghost predicate InPlace(slots: seq<Slot>, cpus: seq<int>, at: nat, cpu: int)
    requires Indexes(slots, cpus)
  {
    && at <= |cpus| && 0 <= cpu < |slots|
    && (at > 0 ==> slots[cpus[at - 1]].time <= slots[cpu].time)
    && (at < |cpus| ==> slots[cpu].time < slots[cpus[at]].time)
  }

  /** Puts a slot into the sorted prefix of the recorded indexes. */
  method InsertIndex(slots: seq<Slot>, cpuIndexes: array<int>, jobCpu: nat, cpu: int) returns (ghost at: nat)
    requires jobCpu < cpuIndexes.Length && 0 <= cpu < |slots|
    requires Indexes(slots, cpuIndexes[..jobCpu]) && SortedByTime(slots, cpuIndexes[..jobCpu])
    modifies cpuIndexes
    ensures at <= jobCpu && cpuIndexes[..jobCpu + 1] == Insert(old(cpuIndexes[..jobCpu]), at, cpu)
    ensures InPlace(slots, old(cpuIndexes[..jobCpu]), at, cpu)
    ensures Indexes(slots, cpuIndexes[..jobCpu + 1]) && SortedByTime(slots, cpuIndexes[..jobCpu + 1])
  {
    hide SortedByTime;
    ghost var was := cpuIndexes[..jobCpu];
    var tmpJobCpu := jobCpu;
    while tmpJobCpu > 0 && slots[cpuIndexes[tmpJobCpu - 1]].time > slots[cpu].time
      invariant tmpJobCpu <= jobCpu
      invariant forall a :: 0 <= a < tmpJobCpu ==> cpuIndexes[a] == was[a]
      invariant forall a :: tmpJobCpu < a <= jobCpu ==> cpuIndexes[a] == was[a - 1]
      invariant tmpJobCpu < jobCpu ==> slots[cpu].time < slots[was[tmpJobCpu]].time
    {
      cpuIndexes[tmpJobCpu] := cpuIndexes[tmpJobCpu - 1];
      tmpJobCpu := tmpJobCpu - 1;
    }
    cpuIndexes[tmpJobCpu] := cpu;
    at := tmpJobCpu;
    SortedInsert(slots, was, at, cpu);
    assert cpuIndexes[..jobCpu + 1] == Insert(was, at, cpu);
  }

  /** The elements of a sequence. */
  ghost function Elements(s: seq<int>): set<int> {
    set x | x in s
  }

  lemma {:induction false} CardOfDistinct(s: seq<int>)
    requires Distinct(s)
    ensures |Elements(s)| == |s|
  {
    if s != [] {
      var l := |s| - 1;
      CardOfDistinct(s[..l]);
      assert Elements(s) == Elements(s[..l]) + {s[l]};
      assert s[l] !in s[..l];
    }
  }

  lemma {:induction false} CardOfSubset(a: set<int>, b: set<int>)
    requires a <= b
    ensures |a| <= |b|
  {
    assert b == a + (b - a);
  }

  lemma {:induction false} InsertDistinct(s: seq<int>, k: nat, x: int)
    requires Distinct(s) && x !in s && k <= |s|
    ensures Distinct(Insert(s, k, x)) && Elements(Insert(s, k, x)) == Elements(s) + {x}
  {
    var r := Insert(s, k, x);
    forall i, j | 0 <= i < j < |r|
      ensures r[i] != r[j]
    {
      assert r[i] == if i < k then s[i] else if i == k then x else s[i - 1];
      assert r[j] == if j < k then s[j] else if j == k then x else s[j - 1];
    }
    assert forall y :: y in r <==> y in s[..k] || y == x || y in s[k..];
    assert s == s[..k] + s[k..];
  }

  // ----- what a selection means

  /** The slots of a node that are free to be picked and idle from an instant on. */
  ghost function AvailableBy(slots: seq<Slot>, init: seq<int>, node: int, t: int): set<int>
    requires |init| == |slots|
  {
    set i | 0 <= i < |slots| && init[i] == 0 && slots[i].node == node && slots[i].time <= t
  }

  /** Some slot of the same node that depends on no exception is later than this one, and idle from an instant on. */
  ghost predicate OutlastedBy(slots: seq<Slot>, init: seq<int>, i: nat, t: int)
    requires |init| == |slots| && i < |slots|
  {
    exists j :: 0 <= j < |slots| && init[j] == 0 && slots[j].node == slots[i].node && slots[i].time < slots[j].time <= t
  }

  /** The same with the slots that fit while a later one of their node is picked, too. */
  ghost function UsableBy(slots: seq<Slot>, init: seq<int>, node: int, t: int): set<int>
    requires |init| == |slots|
  {
    set i | 0 <= i < |slots| && slots[i].node == node &&
            ((init[i] == 0 && slots[i].time <= t) || (init[i] == NOT_NOW && OutlastedBy(slots, init, i, t)))
  }

  /**
   A node has enough slots for so many places. Slots that depend on the memory
   exception count for a single place, and for places of a single CPU.
   */
  ghost predicate RoomOn(slots: seq<Slot>, init: seq<int>, ppn: nat, node: int, places: nat, t: int)
    requires |init| == |slots|
  {
    || Base(places, ppn) <= |AvailableBy(slots, init, node, t)|
    || ((places == 1 || ppn == 1) && Base(places, ppn) <= |UsableBy(slots, init, node, t)|)
  }

  /** Slots of these nodes suffice at an instant: each node has enough of them for all its places. */
  ghost predicate PlacedBy(slots: seq<Slot>, init: seq<int>, ppn: nat, fixedNames: seq<Option<int>>, nodes: seq<Option<int>>, t: int)
    requires |init| == |slots|
  {
    && |nodes| == |fixedNames| && None !in nodes
    && (None !in fixedNames ==> multiset(nodes) == multiset(fixedNames))
    && forall n: int :: RoomOn(slots, init, ppn, n, multiset(nodes)[Some(n)], t)
  }

  /** A job for as many nodes as there are names, all free or all fixed, can have its slots at an instant. */
  ghost predicate CanStart(slots: seq<Slot>, init: seq<int>, ppn: nat, fixedNames: seq<Option<int>>, t: int)
    requires |init| == |slots|
  {
    exists nodes :: PlacedBy(slots, init, ppn, fixedNames, nodes, t)
  }

  ghost predicate LeastFit(slots: seq<Slot>, init: seq<int>, ppn: nat, fixedNames: seq<Option<int>>, start: int)
    requires |init| == |slots|
  {
    CanStart(slots, init, ppn, fixedNames, start) && forall t :: t < start ==> !CanStart(slots, init, ppn, fixedNames, t)
  }

  /** The attempt after a pick: turning to another node starts a new one. */
  function NextAttempt(slots: seq<Slot>, cur: Cursor, p: nat): int
    requires p < |slots|
  {
    if cur.considered.Some? && cur.considered.value != slots[p].node then cur.attempt + 1 else cur.attempt
  }

  /** The cursor after a pick. */
  function MovedTo(slots: seq<Slot>, cur: Cursor, p: nat): (c: Cursor)
    requires p < |slots| && cur.Valid(|slots|)
    ensures c.Valid(|slots|)
  {
    Cursor(Some(slots[p].node), NextAttempt(slots, cur, p), Later(slots, cur.nodeLatest, p), Later(slots, cur.totalLatest, p))
  }

  /** The number of slots that the completed nodes have given. */
  function Base(planNodes: nat, ppn: nat): nat {
    planNodes * ppn
  }

  lemma {:induction false} NextBase(planNodes: nat, ppn: nat)
    ensures Base(planNodes + 1, ppn) == Base(planNodes, ppn) + ppn
  {
  }

  // ----- the selection loop

  /** The later of two slots, the new one when they are as late; -1 stands for none. */
  function Later(slots: seq<Slot>, latest: int, cpu: nat): (r: nat)
    requires -1 <= latest < |slots| && cpu < |slots|
    ensures r < |slots|
  {
    if latest != -1 && slots[latest].time > slots[cpu].time then latest else cpu
  }

  /** Marks the slots of a completed node as taken. */
  method TakeSlots(avail: array<int>, tmpCpus: array<int>)
    requires forall a :: 0 <= a < tmpCpus.Length ==> 0 <= tmpCpus[a] < avail.Length
    requires avail != tmpCpus
    modifies avail
    ensures forall x :: 0 <= x < avail.Length ==> avail[x] == if x in tmpCpus[..] then TAKEN else old(avail[x])
  {
    for i := 0 to tmpCpus.Length
      invariant forall x :: 0 <= x < avail.Length ==> avail[x] == if x in tmpCpus[..i] then TAKEN else old(avail[x])
    {
      avail[tmpCpus[i]] := TAKEN;
      assert tmpCpus[..i + 1] == tmpCpus[..i] + [tmpCpus[i]];
    }
    assert tmpCpus[..tmpCpus.Length] == tmpCpus[..];
  }

  /** The places that a job still has on the nodes it is fixed to. */
  ghost function FreePlaces(fixedNames: seq<Option<int>>, free: seq<bool>): multiset<Option<int>>
    requires |free| == |fixedNames|
  {
    if free == [] then multiset{}
    else
      var l := |free| - 1;
      FreePlaces(fixedNames[..l], free[..l]) + if free[l] then multiset{fixedNames[l]} else multiset{}
  }

  lemma {:induction false} PlaceUsed(fixedNames: seq<Option<int>>, free: seq<bool>, k: nat)
    requires |free| == |fixedNames| && k < |free| && free[k]
    ensures FreePlaces(fixedNames, free) == FreePlaces(fixedNames, free[k := false]) + multiset{fixedNames[k]}
  {
    var l := |free| - 1;
    if k < l {
      PlaceUsed(fixedNames[..l], free[..l], k);
      assert free[k := false][..l] == free[..l][k := false];
    } else {
      assert free[k := false][..l] == free[..l];
    }
  }

  lemma {:induction false} PlaceLeft(fixedNames: seq<Option<int>>, free: seq<bool>, name: Option<int>) returns (k: int)
    requires |free| == |fixedNames|
    ensures name in FreePlaces(fixedNames, free) ==> 0 <= k < |free| && free[k] && fixedNames[k] == name
    ensures (exists j :: 0 <= j < |free| && free[j] && fixedNames[j] == name) ==> name in FreePlaces(fixedNames, free)
  {
    k := -1;
    if free != [] {
      var l := |free| - 1;
      k := PlaceLeft(fixedNames[..l], free[..l], name);
      if free[l] && fixedNames[l] == name {
        k := l;
      } else if j :| 0 <= j < |free| && free[j] && fixedNames[j] == name {
        assert free[..l][j];
      }
    }
  }

  /** Uses up one place on a node; the result tells whether it was the last one there. */
  method UsePlace(fixedNames: seq<Option<int>>, nodePpnFree: array<bool>, node: int) returns (notAnymore: bool)
    requires nodePpnFree.Length == |fixedNames| && Some(node) in FreePlaces(fixedNames, nodePpnFree[..])
    modifies nodePpnFree
    ensures FreePlaces(fixedNames, old(nodePpnFree[..])) == FreePlaces(fixedNames, nodePpnFree[..]) + multiset{Some(node)}
    ensures notAnymore <==> Some(node) !in FreePlaces(fixedNames, nodePpnFree[..])
  {
    hide FreePlaces;
    ghost var free := nodePpnFree[..];
    ghost var place := PlaceLeft(fixedNames, free, Some(node));
    ghost var used := -1;
    notAnymore := false;
    var k := 0;
    while k < |fixedNames|
      invariant 0 <= k <= |fixedNames|
      invariant notAnymore <==> used != -1
      invariant used == -1 ==> nodePpnFree[..] == free && forall j :: 0 <= j < k ==> !(free[j] && fixedNames[j] == Some(node))
      invariant used != -1 ==>
                  && 0 <= used < k && free[used] && fixedNames[used] == Some(node)
                  && nodePpnFree[..] == free[used := false]
                  && forall j :: 0 <= j < k ==> !(nodePpnFree[j] && fixedNames[j] == Some(node))
    {
      if nodePpnFree[k] && fixedNames[k] == Some(node) {
        if notAnymore {
          PlaceUsed(fixedNames, free, used);
          ghost var other := PlaceLeft(fixedNames, nodePpnFree[..], Some(node));
          assert nodePpnFree[..][k];
          return false;
        }
        notAnymore := true;
        nodePpnFree[k] := false;
        used := k;
      }
      k := k + 1;
    }
    assert used != -1;
    PlaceUsed(fixedNames, free, used);
    ghost var other := PlaceLeft(fixedNames, nodePpnFree[..], Some(node));
  }

  /** Uses up one of the places that the job has on a node; with the last one its other slots are prohibited. */
  method ProhibitUsedNode(slots: seq<Slot>, avail: array<int>, fixedNames: seq<Option<int>>, nodePpnFree: array<bool>, node: int)
    requires avail.Length == |slots| && nodePpnFree.Length == |fixedNames|
    requires Some(node) in FreePlaces(fixedNames, nodePpnFree[..])
    modifies avail, nodePpnFree
    ensures FreePlaces(fixedNames, old(nodePpnFree[..])) == FreePlaces(fixedNames, nodePpnFree[..]) + multiset{Some(node)}
    ensures forall x :: 0 <= x < |slots| ==>
              avail[x] == if Some(node) !in FreePlaces(fixedNames, nodePpnFree[..]) && slots[x].node == node && old(avail[x]) != TAKEN
                          then PROHIBITED else old(avail[x])
  {
    hide FreePlaces;
    var notAnymore := UsePlace(fixedNames, nodePpnFree, node);
    ghost var free := nodePpnFree[..];
    if notAnymore {
      for i := 0 to |slots|
        invariant nodePpnFree[..] == free
        invariant forall x :: 0 <= x < |slots| ==>
                    avail[x] == if x < i && slots[x].node == node && old(avail[x]) != TAKEN then PROHIBITED else old(avail[x])
      {
        if slots[i].node == node && avail[i] != TAKEN {
          avail[i] := PROHIBITED;
        }
      }
    }
  }

  lemma {:induction false} WithdrawnSelf(a: seq<int>)
    ensures Withdrawn(a, a)
  {
  }

  /** The marks after a node has given its slots; other slots may be prohibited along with that. */
  ghost predicate Commits(slots: seq<Slot>, marks: seq<int>, tmp: seq<int>, node: int, usedUp: bool, marks': seq<int>)
  {
    && |marks| == |marks'| == |slots|
    && forall x :: 0 <= x < |slots| ==>
         marks'[x] == if x in tmp then TAKEN
                      else if usedUp && slots[x].node == node && marks[x] != TAKEN then PROHIBITED
                      else marks[x]
  }

  lemma {:induction false} CommitsWithdraws(slots: seq<Slot>, marks: seq<int>, tmp: seq<int>, node: int, usedUp: bool, marks': seq<int>)
    requires Commits(slots, marks, tmp, node, usedUp, marks')
    ensures Withdrawn(marks, marks')
  {
  }

  /** The node has given enough: its slots are taken, and it may be used up. */
  method CommitNode(slots: seq<Slot>, avail: array<int>, tmpCpus: array<int>, fixedNames: seq<Option<int>>,
                    nodePpnFree: array<bool>, node: int, wipe: bool)
    returns (ghost usedUp: bool)
    requires avail.Length == |slots| && nodePpnFree.Length == |fixedNames| && avail != tmpCpus
    requires forall a :: 0 <= a < tmpCpus.Length ==> 0 <= tmpCpus[a] < avail.Length
    requires !wipe ==> Some(node) in FreePlaces(fixedNames, nodePpnFree[..])
    modifies avail, nodePpnFree
    ensures Commits(slots, old(avail[..]), tmpCpus[..], node, usedUp, avail[..])
    ensures if wipe then !usedUp && nodePpnFree[..] == old(nodePpnFree[..])
            else && FreePlaces(fixedNames, old(nodePpnFree[..])) == FreePlaces(fixedNames, nodePpnFree[..]) + multiset{Some(node)}
                 && (usedUp <==> Some(node) !in FreePlaces(fixedNames, nodePpnFree[..]))
  {
    hide FreePlaces;
    usedUp := false;
    TakeSlots(avail, tmpCpus);
    if !wipe {
      ProhibitUsedNode(slots, avail, fixedNames, nodePpnFree, node);
      usedUp := Some(node) !in FreePlaces(fixedNames, nodePpnFree[..]);
    }
  }

  /** Marks after any number of picks: a slot out of the question stays so. */
  ghost predicate MarksOf(init: seq<int>, marks: seq<int>) {
    && |marks| == |init|
    && forall i :: 0 <= i < |init| ==>
         marks[i] == init[i] || marks[i] == TAKEN || marks[i] == PROHIBITED || (IsFresh(init[i]) && marks[i] > 0)
  }

  ghost predicate InitialMarks(init: seq<int>) {
    forall i :: 0 <= i < |init| ==> init[i] <= 0 && init[i] != -5
  }

  ghost predicate NoException(init: seq<int>) {
    forall i :: 0 <= i < |init| ==> init[i] != NOT_NOW
  }

  /** Slots of the table, none of them out of the question, in the order of their times. */
  ghost predicate UsableSlots(slots: seq<Slot>, init: seq<int>, cpus: seq<int>)
    requires |init| == |slots|
  {
    Indexes(slots, cpus) && SortedByTime(slots, cpus) && forall a :: 0 <= a < |cpus| ==> IsFresh(init[cpus[a]])
  }

  lemma {:induction false} UsableInsert(slots: seq<Slot>, init: seq<int>, cpus: seq<int>, k: nat, cpu: int)
    requires |init| == |slots| && UsableSlots(slots, init, cpus) && k <= |cpus|
    requires 0 <= cpu < |slots| && IsFresh(init[cpu])
    requires Indexes(slots, Insert(cpus, k, cpu)) && SortedByTime(slots, Insert(cpus, k, cpu))
    ensures UsableSlots(slots, init, Insert(cpus, k, cpu))
  {
    var r := Insert(cpus, k, cpu);
    assert forall a :: 0 <= a < |r| ==> r[a] == if a < k then cpus[a] else if a == k then cpu else cpus[a - 1];
  }

  lemma {:induction false} UsablePrefix(slots: seq<Slot>, init: seq<int>, cpus: seq<int>, k: nat)
    requires |init| == |slots| && UsableSlots(slots, init, cpus) && k <= |cpus|
    ensures UsableSlots(slots, init, cpus[..k])
  {
  }

  lemma {:induction false} MarksOfPick(slots: seq<Slot>, init: seq<int>, marks: seq<int>, cur: Cursor, p: int, attempt: int)
    requires |init| == |slots| && MarksOf(init, marks) && InitialMarks(init) && cur.Valid(|slots|)
    requires FirstCandidate(slots, marks, cur, p) && attempt >= 1
    ensures IsFresh(init[p]) && MarksOf(init, marks[p := attempt])
  {
  }

  lemma {:induction false} MarksOfWithdrawn(init: seq<int>, marks: seq<int>, marks': seq<int>)
    requires MarksOf(init, marks) && Withdrawn(marks, marks')
    ensures MarksOf(init, marks')
  {
  }

  lemma {:induction false} MarksNotMinusFive(init: seq<int>, marks: seq<int>)
    requires MarksOf(init, marks) && InitialMarks(init)
    ensures forall i :: 0 <= i < |marks| ==> marks[i] != -5
  {
  }

  lemma {:induction false} FirstCandidateIndex(slots: seq<Slot>, marks: seq<int>, cur: Cursor, p: int)
    requires |marks| == |slots| && cur.Valid(|slots|) && FirstCandidate(slots, marks, cur, p)
    ensures 0 <= p < |slots|
  {
  }

  lemma {:induction false} UsableMeans(slots: seq<Slot>, init: seq<int>, cpus: seq<int>)
    requires |init| == |slots| && UsableSlots(slots, init, cpus)
    ensures Indexes(slots, cpus) && SortedByTime(slots, cpus)
  {
  }

  /** What may be picked belongs to the nodes named. */
  ghost predicate Confined(slots: seq<Slot>, marks: seq<int>, names: multiset<Option<int>>)
    requires |marks| == |slots|
  {
    forall x :: 0 <= x < |slots| && (IsFresh(marks[x]) || marks[x] > 0) ==> Some(slots[x].node) in names
  }
}
