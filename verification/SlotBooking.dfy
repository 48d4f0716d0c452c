/**
 Giving slots to a job (plan_first_free_slot.cpp, the time field), and what that
 means for the CPUs that are busy at an instant.
 */
module SlotBooking {
  import opened PlanLists
  import opened SlotSelection
  import opened Gaps
  import opened GapEmission

  /** The table in which the given slots become free at the completion of the job. */
  ghost predicate Freed(slots: seq<Slot>, slots': seq<Slot>, cpus: seq<int>, completion: int) {
    && |slots'| == |slots|
    && forall x :: 0 <= x < |slots| ==>
         slots'[x] == if x in cpus then slots[x].(time := completion) else slots[x]
  }

  /** Repeats the update once per node of the job, as the source does. */
  method FirstFreeSlotsUpdate(slots: array<Slot>, cpus: seq<int>, numNodes: nat, completion: int)
    requires Indexes(slots[..], cpus) && numNodes >= 1
    modifies slots
    ensures Freed(old(slots[..]), slots[..], cpus, completion)
  {
    ghost var was := slots[..];
    for j := 0 to numNodes
      invariant if j == 0 then slots[..] == was else Freed(was, slots[..], cpus, completion)
    {
      for i := 0 to |cpus|
        invariant forall x :: 0 <= x < |was| ==>
                    slots[x] == if x in cpus[..i] || (j > 0 && x in cpus) then was[x].(time := completion) else was[x]
      {
        slots[cpus[i]] := slots[cpus[i]].(time := completion);
        assert cpus[..i + 1] == cpus[..i] + [cpus[i]];
      }
      assert cpus[..|cpus|] == cpus;
    }
  }

  /** The slots that are busy at an instant, in all or on one node. */
  function BusyAt(slots: seq<Slot>, t: int, m: Measure): nat {
    if slots == [] then 0
    else
      var s := slots[|slots| - 1];
      BusyAt(slots[..|slots| - 1], t, m) + if s.time > t && Counts(s, m) then 1 else 0
  }

  /** The slots in service. */
  function InServiceCount(slots: seq<Slot>, m: Measure): nat {
    if slots == [] then 0
    else
      var s := slots[|slots| - 1];
      InServiceCount(slots[..|slots| - 1], m) + if s.time >= 0 && Counts(s, m) then 1 else 0
  }

  /** The slots of a choice that belong to a measure. */
  function SizeOf(sel: seq<Slot>, m: Measure): nat {
    if sel == [] then 0
    else SizeOf(sel[..|sel| - 1], m) + if Counts(sel[|sel| - 1], m) then 1 else 0
  }

  /** A slot in service is either busy or free. */
  lemma {:induction false} BusyOrFree(slots: seq<Slot>, t: int, m: Measure)
    requires t >= 0
    ensures BusyAt(slots, t, m) + FreeBy(slots, t, m) == InServiceCount(slots, m)
  {
    if slots != [] {
      BusyOrFree(slots[..|slots| - 1], t, m);
    }
  }

  lemma {:induction false} BusyUpdate(slots: seq<Slot>, x: nat, completion: int, t: int, m: Measure)
    requires x < |slots|
    ensures BusyAt(slots[x := slots[x].(time := completion)], t, m) ==
            BusyAt(slots, t, m) - (if slots[x].time > t && Counts(slots[x], m) then 1 else 0)
                                + (if completion > t && Counts(slots[x], m) then 1 else 0)
  {
    var l := |slots| - 1;
    var slots' := slots[x := slots[x].(time := completion)];
    if x == l {
      assert slots'[..l] == slots[..l];
    } else {
      assert slots'[..l] == slots[..l][x := slots[x].(time := completion)];
      BusyUpdate(slots[..l], x, completion, t, m);
    }
  }

  /** The table after giving the slots one by one. */
  ghost function FreeAll(slots: seq<Slot>, cpus: seq<int>, completion: int): (r: seq<Slot>)
    requires Indexes(slots, cpus)
    ensures |r| == |slots|
  {
    if cpus == [] then slots
    else
      var x := cpus[|cpus| - 1];
      var r := FreeAll(slots, cpus[..|cpus| - 1], completion);
      r[x := r[x].(time := completion)]
  }

  lemma {:induction false} FreeAllIs(slots: seq<Slot>, cpus: seq<int>, completion: int)
    requires Indexes(slots, cpus)
    ensures Freed(slots, FreeAll(slots, cpus, completion), cpus, completion)
  {
    if cpus != [] {
      FreeAllIs(slots, cpus[..|cpus| - 1], completion);
      assert cpus == cpus[..|cpus| - 1] + [cpus[|cpus| - 1]];
    }
  }

  lemma {:induction false} FreedIsFreeAll(slots: seq<Slot>, slots': seq<Slot>, cpus: seq<int>, completion: int)
    requires Indexes(slots, cpus) && Freed(slots, slots', cpus, completion)
    ensures slots' == FreeAll(slots, cpus, completion)
  {
    FreeAllIs(slots, cpus, completion);
  }

  /** The same account for the last of the slots. */
  lemma {:induction false} BookingOne(slots: seq<Slot>, cpus: seq<int>, start: int, completion: int, latest: int, t: int, m: Measure)
    requires Indexes(slots, cpus) && Distinct(cpus) && cpus != []
    requires Freed(slots, FreeAll(slots, cpus[..|cpus| - 1], completion), cpus[..|cpus| - 1], completion)
    requires var s := slots[cpus[|cpus| - 1]]; 0 <= s.time <= latest <= start <= completion
    ensures var s := slots[cpus[|cpus| - 1]];
            BusyAt(FreeAll(slots, cpus, completion), t, m) ==
            BusyAt(FreeAll(slots, cpus[..|cpus| - 1], completion), t, m) +
            (if !Counts(s, m) || completion <= t || t < s.time then 0 else 1)
  {
    var x := cpus[|cpus| - 1];
    assert x !in cpus[..|cpus| - 1];
    hide BusyAt;
    BusyUpdate(FreeAll(slots, cpus[..|cpus| - 1], completion), x, completion, t, m);
  }

  /**
   Booking distinct slots until the completion of a job that starts when all of
   them are free: the table counts as busy, in addition, exactly what the gaps show
   in front of the job, what waits for the job while limits delay it, and what it holds.
   */
  lemma {:induction false} BookingCovers(slots: seq<Slot>, cpus: seq<int>, start: int, completion: int, latest: int, t: int, m: Measure)
    requires Indexes(slots, cpus) && Distinct(cpus)
    requires forall a :: 0 <= a < |cpus| ==> 0 <= slots[cpus[a]].time <= latest
    requires latest <= start <= completion
    ensures BusyAt(slots, t, m)
            + (if t < latest then FreeBy(Chosen(slots, cpus), t, m) else 0)
            + (if latest <= t < start then SizeOf(Chosen(slots, cpus), m) else 0)
            + (if start <= t < completion then SizeOf(Chosen(slots, cpus), m) else 0)
            == BusyAt(FreeAll(slots, cpus, completion), t, m)
  {
    if cpus != [] {
      var l := |cpus| - 1;
      var x := cpus[l];
      BookingCovers(slots, cpus[..l], start, completion, latest, t, m);
      assert Chosen(slots, cpus)[..l] == Chosen(slots, cpus[..l]);
      FreeAllIs(slots, cpus[..l], completion);
      BookingOne(slots, cpus, start, completion, latest, t, m);
    }
  }

  lemma {:induction false} InServiceKept(slots: seq<Slot>, slots': seq<Slot>, m: Measure)
    requires |slots'| == |slots|
    requires forall x :: 0 <= x < |slots| ==>
      slots'[x].node == slots[x].node && (slots'[x].time >= 0 <==> slots[x].time >= 0)
    ensures InServiceCount(slots', m) == InServiceCount(slots, m)
  {
    if slots != [] {
      InServiceKept(slots[..|slots| - 1], slots'[..|slots| - 1], m);
    }
  }
}
