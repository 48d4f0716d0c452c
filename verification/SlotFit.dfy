/** What it means that a job can have its slots at an instant, in terms of counts of idle slots per node. */
module SlotFit {
  import opened PlanLists
  import opened PlanJobs
  import opened SlotSelection

  lemma {:induction false} AvailableIsUsable(slots: seq<Slot>, init: seq<int>, node: int, t: int)
    requires |init| == |slots|
    ensures |AvailableBy(slots, init, node, t)| <= |UsableBy(slots, init, node, t)|
  {
    CardOfSubset(AvailableBy(slots, init, node, t), UsableBy(slots, init, node, t));
  }

  /** For one node: some node has enough idle slots, those that fit below a later one included. */
  lemma {:induction false} OneNodeCanStartIff(slots: seq<Slot>, init: seq<int>, ppn: nat, fixedNames: seq<Option<int>>, t: int)
    requires |init| == |slots| && ppn >= 1 && |fixedNames| == 1
    requires None !in fixedNames ==> Confined(slots, init, multiset(fixedNames))
    ensures CanStart(slots, init, ppn, fixedNames, t) <==> exists node :: |UsableBy(slots, init, node, t)| >= ppn
  {
    if CanStart(slots, init, ppn, fixedNames, t) {
      var nodes: seq<Option<int>> :| PlacedBy(slots, init, ppn, fixedNames, nodes, t);
      var node := nodes[0].value;
      assert nodes == [Some(node)];
      assert multiset(nodes)[Some(node)] == 1;
      assert RoomOn(slots, init, ppn, node, 1, t);
      AvailableIsUsable(slots, init, node, t);
    }
    if node :| |UsableBy(slots, init, node, t)| >= ppn {
      var nodes := [Some(node)];
      if None !in fixedNames {
        var x :| x in UsableBy(slots, init, node, t);
        assert fixedNames == [fixedNames[0]];
        assert Some(node) in multiset(fixedNames);
      }
      assert forall n: int :: multiset(nodes)[Some(n)] == if n == node then 1 else 0;
      assert forall n: int :: n != node ==> RoomOn(slots, init, ppn, n, 0, t);
      assert RoomOn(slots, init, ppn, node, 1, t);
      assert PlacedBy(slots, init, ppn, fixedNames, nodes, t);
    }
  }

  /** The places that a node has at an instant. */
  ghost function PlacesOn(slots: seq<Slot>, init: seq<int>, ppn: nat, node: int, t: int): nat
    requires |init| == |slots| && ppn >= 1
  {
    var plain, usable := |AvailableBy(slots, init, node, t)|, |UsableBy(slots, init, node, t)|;
    if ppn == 1 then usable else if plain < ppn <= usable then 1 else plain / ppn
  }

  lemma {:induction false} RoomIff(slots: seq<Slot>, init: seq<int>, ppn: nat, node: int, places: nat, t: int)
    requires |init| == |slots| && ppn >= 1
    ensures RoomOn(slots, init, ppn, node, places, t) <==> places <= PlacesOn(slots, init, ppn, node, t)
  {
    AvailableIsUsable(slots, init, node, t);
    QuotientIff(places, |AvailableBy(slots, init, node, t)|, ppn);
    QuotientIff(1, |AvailableBy(slots, init, node, t)|, ppn);
    assert Base(1, ppn) == ppn && Base(places, 1) == places;
  }

  /** How many places the nodes listed have at an instant. */
  ghost function PlacesAt(slots: seq<Slot>, init: seq<int>, ppn: nat, ids: seq<int>, t: int): nat
    requires |init| == |slots| && ppn >= 1
  {
    if ids == [] then 0
    else
      var l := |ids| - 1;
      PlacesAt(slots, init, ppn, ids[..l], t) + PlacesOn(slots, init, ppn, ids[l], t)
  }

  ghost function CountsOf(m: multiset<Option<int>>, ids: seq<int>): nat {
    if ids == [] then 0 else CountsOf(m, ids[..|ids| - 1]) + m[Some(ids[|ids| - 1])]
  }

  lemma {:induction false} CountsOfAll(m: multiset<Option<int>>, ids: seq<int>)
    requires Distinct(ids) && forall x :: x in m ==> x.Some? && x.value in ids
    ensures CountsOf(m, ids) == |m|
  {
    if ids == [] {
      assert m == multiset{};
    } else {
      var l := |ids| - 1;
      var last := Some(ids[l]);
      var rest := m[last := 0];
      CountsOfAll(rest, ids[..l]);
      CountsWithout(m, ids[..l], ids[l]);
      assert m == rest + multiset{}[last := m[last]];
      assert |multiset{}[last := m[last]]| == m[last];
    }
  }

  lemma {:induction false} CountsWithout(m: multiset<Option<int>>, ids: seq<int>, id: int)
    requires id !in ids
    ensures CountsOf(m[Some(id) := 0], ids) == CountsOf(m, ids)
  {
    if ids != [] {
      CountsWithout(m, ids[..|ids| - 1], id);
    }
  }

  lemma {:induction false} TimesMonotone(x: int, y: int, ppn: nat)
    requires x <= y
    ensures x * ppn <= y * ppn
  {
  }

  lemma {:induction false} DivideRests(a: nat, ppn: nat)
    requires ppn >= 1
    ensures a / ppn >= 0 && (a / ppn) * ppn <= a < (a / ppn) * ppn + ppn
  {
  }

  /** ppn times a quotient by ppn. */
  lemma {:induction false} QuotientIff(n: nat, a: nat, ppn: nat)
    requires ppn >= 1
    ensures Base(n, ppn) <= a <==> n <= a / ppn
    ensures a / ppn >= 0
  {
    DivideRests(a, ppn);
    QuotientFor(n, a, ppn, a / ppn);
  }

  lemma {:induction false} QuotientFor(n: nat, a: nat, ppn: nat, q: nat)
    requires q * ppn <= a < q * ppn + ppn
    ensures Base(n, ppn) <= a <==> n <= q
  {
    if n <= q {
      TimesMonotone(n, q, ppn);
    } else {
      TimesMonotone(q + 1, n, ppn);
      assert (q + 1) * ppn == q * ppn + ppn;
    }
  }

  lemma {:induction false} CountsWithinPlaces(slots: seq<Slot>, init: seq<int>, ppn: nat, m: multiset<Option<int>>, ids: seq<int>, t: int)
    requires |init| == |slots| && ppn >= 1
    requires forall n: int :: RoomOn(slots, init, ppn, n, m[Some(n)], t)
    ensures CountsOf(m, ids) <= PlacesAt(slots, init, ppn, ids, t)
  {
    hide RoomOn, PlacesOn;
    if ids != [] {
      var l := |ids| - 1;
      CountsWithinPlaces(slots, init, ppn, m, ids[..l], t);
      RoomIff(slots, init, ppn, ids[l], m[Some(ids[l])], t);
    }
  }

  function Repeat(x: Option<int>, n: nat): (s: seq<Option<int>>)
    ensures |s| == n && multiset(s)[x] == n && forall y :: y != x ==> multiset(s)[y] == 0
  {
    if n == 0 then []
    else
      var rest := Repeat(x, n - 1);
      assert multiset(rest + [x]) == multiset(rest) + multiset{x};
      rest + [x]
  }

  /** Every node as often as it has places. */
  ghost function AllPlaces(slots: seq<Slot>, init: seq<int>, ppn: nat, ids: seq<int>, t: int): seq<Option<int>>
    requires |init| == |slots| && ppn >= 1
  {
    if ids == [] then []
    else
      var l := |ids| - 1;
      AllPlaces(slots, init, ppn, ids[..l], t) + Repeat(Some(ids[l]), PlacesOn(slots, init, ppn, ids[l], t))
  }

  lemma {:induction false} AllPlacesCount(slots: seq<Slot>, init: seq<int>, ppn: nat, ids: seq<int>, t: int)
    requires |init| == |slots| && ppn >= 1 && Distinct(ids)
    ensures |AllPlaces(slots, init, ppn, ids, t)| == PlacesAt(slots, init, ppn, ids, t)
    ensures None !in AllPlaces(slots, init, ppn, ids, t)
    ensures forall n: int :: multiset(AllPlaces(slots, init, ppn, ids, t))[Some(n)] ==
                             if n in ids then PlacesOn(slots, init, ppn, n, t) else 0
  {
    if ids != [] {
      var l := |ids| - 1;
      AllPlacesCount(slots, init, ppn, ids[..l], t);
      var a, b := AllPlaces(slots, init, ppn, ids[..l], t), Repeat(Some(ids[l]), PlacesOn(slots, init, ppn, ids[l], t));
      assert multiset(a + b) == multiset(a) + multiset(b);
      assert None !in b by {
        assert multiset(b)[None] == 0;
      }
      assert ids[l] !in ids[..l];
      assert forall n :: n in ids <==> n in ids[..l] || n == ids[l];
    }
  }

  /** A job that is not fixed to nodes can have its slots if and only if its nodes have enough places altogether. */
  lemma {:induction false} CanStartIffPlaces(slots: seq<Slot>, init: seq<int>, ppn: nat, fixedNames: seq<Option<int>>, ids: seq<int>, t: int)
    requires |init| == |slots| && ppn >= 1 && None in fixedNames
    requires Distinct(ids) && forall i :: 0 <= i < |slots| ==> slots[i].node in ids
    ensures CanStart(slots, init, ppn, fixedNames, t) <==> PlacesAt(slots, init, ppn, ids, t) >= |fixedNames|
  {
    if CanStart(slots, init, ppn, fixedNames, t) {
      var nodes: seq<Option<int>> :| PlacedBy(slots, init, ppn, fixedNames, nodes, t);
      forall x | x in multiset(nodes)
        ensures x.Some? && x.value in ids
      {
        assert x in nodes;
        NodeOfPlace(slots, init, ppn, nodes, x.value, t, ids);
      }
      CountsOfAll(multiset(nodes), ids);
      CountsWithinPlaces(slots, init, ppn, multiset(nodes), ids, t);
    }
    if PlacesAt(slots, init, ppn, ids, t) >= |fixedNames| {
      PlacesSuffice(slots, init, ppn, fixedNames, ids, t);
    }
  }

  lemma {:induction false} NodeOfPlace(slots: seq<Slot>, init: seq<int>, ppn: nat, nodes: seq<Option<int>>, n: int, t: int, ids: seq<int>)
    requires |init| == |slots| && ppn >= 1 && Some(n) in nodes && forall i :: 0 <= i < |slots| ==> slots[i].node in ids
    requires RoomOn(slots, init, ppn, n, multiset(nodes)[Some(n)], t)
    ensures n in ids
  {
    assert multiset(nodes)[Some(n)] >= 1;
    QuotientIff(1, |UsableBy(slots, init, n, t)|, ppn);
    QuotientIff(multiset(nodes)[Some(n)], |UsableBy(slots, init, n, t)|, ppn);
    AvailableIsUsable(slots, init, n, t);
    var x :| x in UsableBy(slots, init, n, t);
  }

  lemma {:induction false} PlacesSuffice(slots: seq<Slot>, init: seq<int>, ppn: nat, fixedNames: seq<Option<int>>, ids: seq<int>, t: int)
    requires |init| == |slots| && ppn >= 1 && None in fixedNames && Distinct(ids)
    requires PlacesAt(slots, init, ppn, ids, t) >= |fixedNames|
    ensures CanStart(slots, init, ppn, fixedNames, t)
  {
    hide RoomOn, PlacesOn;
    AllPlacesCount(slots, init, ppn, ids, t);
    var all := AllPlaces(slots, init, ppn, ids, t);
    var nodes, others := all[..|fixedNames|], all[|fixedNames|..];
    assert all == nodes + others;
    assert multiset(all) == multiset(nodes) + multiset(others);
    forall n: int
      ensures RoomOn(slots, init, ppn, n, multiset(nodes)[Some(n)], t)
    {
      assert multiset(nodes)[Some(n)] <= multiset(all)[Some(n)];
      assert multiset(all)[Some(n)] == if n in ids then PlacesOn(slots, init, ppn, n, t) else 0;
      RoomIff(slots, init, ppn, n, multiset(nodes)[Some(n)], t);
    }
    assert PlacedBy(slots, init, ppn, fixedNames, nodes, t);
  }
}
