/**
 The selection goes by the times of the slots: how these are numbered in the table
 makes no difference, as long as no two of them become free at the same instant.
 */
module SlotOrder {
  import opened PlanLists
  import opened PlanJobs
  import opened SlotSelection
  import opened SlotRuns

  /** Slot x of the first table is slot pi[x] of the second one, and the other way round. */
  ghost predicate Renumbers(slots: seq<Slot>, slots': seq<Slot>, pi: seq<int>, inv: seq<int>) {
    && |slots| == |slots'| == |pi| == |inv|
    && (forall x :: 0 <= x < |pi| ==> 0 <= pi[x] < |pi| && inv[pi[x]] == x && slots'[pi[x]] == slots[x])
    && (forall y :: 0 <= y < |inv| ==> 0 <= inv[y] < |inv| && pi[inv[y]] == y)
  }

  ghost predicate NoTies(slots: seq<Slot>) {
    forall x, y :: 0 <= x < y < |slots| ==> slots[x].time != slots[y].time
  }

  ghost predicate Within(s: seq<int>, n: nat) {
    forall i :: 0 <= i < |s| ==> 0 <= s[i] < n
  }

  ghost function Renumbered(pi: seq<int>, s: seq<int>): (r: seq<int>)
    requires Within(s, |pi|)
    ensures |r| == |s| && forall i :: 0 <= i < |s| ==> r[i] == pi[s[i]]
  {
    seq(|s|, i requires 0 <= i < |s| => pi[s[i]])
  }

  ghost function RenumberedSet(pi: seq<int>, s: set<int>): set<int> {
    set x | x in s && 0 <= x < |pi| :: pi[x]
  }

  ghost function RenumberedSets(pi: seq<int>, takes: seq<set<int>>): (r: seq<set<int>>)
    ensures |r| == |takes| && forall k :: 0 <= k < |takes| ==> r[k] == RenumberedSet(pi, takes[k])
  {
    seq(|takes|, k requires 0 <= k < |takes| => RenumberedSet(pi, takes[k]))
  }

  /** A slot, or -1 for none. */
  ghost function RenumberedSlot(pi: seq<int>, l: int): int
    requires -1 <= l < |pi|
  {
    if l == -1 then -1 else pi[l]
  }

  ghost function RenumberedMarks(inv: seq<int>, marks: seq<int>): (r: seq<int>)
    requires |marks| == |inv| && Within(inv, |inv|)
    ensures |r| == |marks| && forall y :: 0 <= y < |inv| ==> r[y] == marks[inv[y]]
  {
    seq(|inv|, y requires 0 <= y < |inv| => marks[inv[y]])
  }

  /** The state mentions no other numbers than those of slots. */
  ghost predicate ViewWithin(v: View, n: nat) {
    && |v.marks| == n && v.cur.Valid(n) && -1 <= v.f < n
    && Within(v.cpus, n) && Within(v.latest, n) && Within(v.tmp, n)
  }

  ghost function RenumberedView(pi: seq<int>, inv: seq<int>, v: View): View
    requires ViewWithin(v, |pi|) && |inv| == |pi| && Within(inv, |inv|)
  {
    View(RenumberedMarks(inv, v.marks), Renumbered(pi, v.cpus),
         Cursor(v.cur.considered, v.cur.attempt, RenumberedSlot(pi, v.cur.nodeLatest), RenumberedSlot(pi, v.cur.totalLatest)),
         v.start, v.nodes, Renumbered(pi, v.latest), RenumberedSlot(pi, v.f), Renumbered(pi, v.tmp),
         RenumberedSets(pi, v.takes), RenumberedSet(pi, v.ever))
  }

  lemma {:induction false} CandidateRenumbered(slots: seq<Slot>, slots': seq<Slot>, pi: seq<int>, inv: seq<int>, cur: Cursor, mark: int, x: nat)
    requires Renumbers(slots, slots', pi, inv) && cur.Valid(|slots|) && x < |slots|
    ensures var cur' := Cursor(cur.considered, cur.attempt, RenumberedSlot(pi, cur.nodeLatest), RenumberedSlot(pi, cur.totalLatest));
            cur'.Valid(|slots'|) && (Candidate(slots', mark, pi[x], cur') <==> Candidate(slots, mark, x, cur))
  {
  }

  lemma {:induction false} FirstRenumbered(slots: seq<Slot>, slots': seq<Slot>, pi: seq<int>, inv: seq<int>, v: View, p: nat)
    requires Renumbers(slots, slots', pi, inv) && NoTies(slots) && ViewWithin(v, |slots|) && p < |slots|
    requires FirstCandidate(slots, v.marks, v.cur, p)
    ensures var v' := RenumberedView(pi, inv, v); v'.cur.Valid(|slots'|) && FirstCandidate(slots', v'.marks, v'.cur, pi[p])
  {
    var v' := RenumberedView(pi, inv, v);
    CandidateRenumbered(slots, slots', pi, inv, v.cur, v.marks[p], p);
    forall y | 0 <= y < |slots'| && y != pi[p]
      ensures Candidate(slots', v'.marks[y], y, v'.cur) ==> Precedes(slots', pi[p], y)
    {
      CandidateRenumbered(slots, slots', pi, inv, v.cur, v.marks[inv[y]], inv[y]);
    }
  }

  lemma {:induction false} InsertRenumbered(pi: seq<int>, s: seq<int>, at: nat, p: int)
    requires Within(s, |pi|) && at <= |s| && 0 <= p < |pi|
    ensures Within(Insert(s, at, p), |pi|) && Renumbered(pi, Insert(s, at, p)) == Insert(Renumbered(pi, s), at, pi[p])
  {
    var r, r' := Insert(s, at, p), Insert(Renumbered(pi, s), at, pi[p]);
    forall i | 0 <= i < |r|
      ensures 0 <= r[i] < |pi| && pi[r[i]] == r'[i]
    {
      assert r[i] == if i < at then s[i] else if i == at then p else s[i - 1];
      assert r'[i] == if i < at then Renumbered(pi, s)[i] else if i == at then pi[p] else Renumbered(pi, s)[i - 1];
    }
    assert Renumbered(pi, r) == r';
  }

  lemma {:induction false} PickRenumbered(slots: seq<Slot>, slots': seq<Slot>, init: seq<int>, init': seq<int>, ppn: nat,
                                          pi: seq<int>, inv: seq<int>, v: View, p: nat, at: nat)
    requires Renumbers(slots, slots', pi, inv) && NoTies(slots) && ViewWithin(v, |slots|) && |init'| == |slots'|
    requires PickStep(slots, init, ppn, v, p, at)
    ensures PickStep(slots', init', ppn, RenumberedView(pi, inv, v), pi[p], at)
    ensures at <= |Kept(slots', ppn, RenumberedView(pi, inv, v), pi[p])|
    ensures ViewWithin(AfterPick(slots, ppn, v, p, at), |slots|)
    ensures AfterPick(slots', ppn, RenumberedView(pi, inv, v), pi[p], at) == RenumberedView(pi, inv, AfterPick(slots, ppn, v, p, at))
  {
    hide FirstCandidate, Base;
    var v' := RenumberedView(pi, inv, v);
    FirstRenumbered(slots, slots', pi, inv, v, p);
    var kept, kept' := Kept(slots, ppn, v, p), Kept(slots', ppn, v', pi[p]);
    assert Within(kept, |pi|) && kept' == Renumbered(pi, kept);
    InsertRenumbered(pi, kept, at, p);
    PickedRenumbered(slots, slots', ppn, pi, inv, v, p, at);
  }

  /** What a pick does to the state, in the other table. */
  lemma {:induction false} PickedRenumbered(slots: seq<Slot>, slots': seq<Slot>, ppn: nat, pi: seq<int>, inv: seq<int>, v: View, p: nat, at: nat)
    requires Renumbers(slots, slots', pi, inv) && ViewWithin(v, |slots|) && p < |slots| && Base(|v.nodes|, ppn) <= |v.cpus|
    requires at <= |Kept(slots, ppn, v, p)| && Within(Kept(slots, ppn, v, p), |pi|)
    requires Kept(slots', ppn, RenumberedView(pi, inv, v), pi[p]) == Renumbered(pi, Kept(slots, ppn, v, p))
    requires Within(Insert(Kept(slots, ppn, v, p), at, p), |pi|)
    requires Renumbered(pi, Insert(Kept(slots, ppn, v, p), at, p)) == Insert(Renumbered(pi, Kept(slots, ppn, v, p)), at, pi[p])
    ensures ViewWithin(AfterPick(slots, ppn, v, p, at), |slots|)
    ensures AfterPick(slots', ppn, RenumberedView(pi, inv, v), pi[p], at) == RenumberedView(pi, inv, AfterPick(slots, ppn, v, p, at))
  {
    hide Base, Kept;
    var v' := RenumberedView(pi, inv, v);
    var u, u' := AfterPick(slots, ppn, v, p, at), AfterPick(slots', ppn, v', pi[p], at);
    assert ViewWithin(u, |slots|);
    assert u'.marks == RenumberedMarks(inv, u.marks);
    assert u'.tmp == Renumbered(pi, u.tmp);
    assert u'.ever == RenumberedSet(pi, u.ever);
    assert u'.cur == RenumberedView(pi, inv, u).cur;
  }

  lemma {:induction false} ElementsRenumbered(pi: seq<int>, inv: seq<int>, s: seq<int>)
    requires Within(s, |pi|) && |inv| == |pi| && forall x :: 0 <= x < |pi| ==> 0 <= pi[x] < |pi| && inv[pi[x]] == x
    ensures Elements(Renumbered(pi, s)) == RenumberedSet(pi, Elements(s))
    ensures forall x :: 0 <= x < |pi| ==> (pi[x] in Renumbered(pi, s) <==> x in s)
  {
    var r := Renumbered(pi, s);
    forall x | 0 <= x < |pi|
      ensures pi[x] in r <==> x in s
    {
      if x in s {
        var i :| 0 <= i < |s| && s[i] == x;
        assert r[i] == pi[x];
      }
      if pi[x] in r {
        var i :| 0 <= i < |r| && r[i] == pi[x];
        assert s[i] == x;
      }
    }
  }

  lemma {:induction false} CommitRenumbered(slots: seq<Slot>, slots': seq<Slot>, pi: seq<int>, inv: seq<int>, v: View, node: int, usedUp: bool, marks: seq<int>)
    requires Renumbers(slots, slots', pi, inv) && ViewWithin(v, |slots|)
    requires Commits(slots, v.marks, v.tmp, node, usedUp, marks) && v.cpus != [] && v.cur.nodeLatest != -1
    ensures Commits(slots', RenumberedMarks(inv, v.marks), Renumbered(pi, v.tmp), node, usedUp, RenumberedMarks(inv, marks))
    ensures ViewWithin(AfterCommit(slots, v, marks), |slots|)
    ensures var v' := RenumberedView(pi, inv, v);
            && v'.cpus != [] && 0 <= v'.cpus[|v'.cpus| - 1] < |slots'|
            && AfterCommit(slots', v', RenumberedMarks(inv, marks)) == RenumberedView(pi, inv, AfterCommit(slots, v, marks))
  {
    ElementsRenumbered(pi, inv, v.tmp);
    var v' := RenumberedView(pi, inv, v);
    var marks' := RenumberedMarks(inv, marks);
    forall y | 0 <= y < |slots'|
      ensures marks'[y] == if y in v'.tmp then TAKEN
                           else if usedUp && slots'[y].node == node && v'.marks[y] != TAKEN then PROHIBITED else v'.marks[y]
    {
      assert pi[inv[y]] == y && slots'[y] == slots[inv[y]];
    }
    var w, w' := AfterCommit(slots, v, marks), AfterCommit(slots', v', marks');
    assert w'.latest == Renumbered(pi, w.latest);
    assert w'.takes == RenumberedSets(pi, w.takes);
    assert Renumbered(pi, []) == [];
  }

  /** One turn of the loop, in the other table. */
  lemma {:induction false} StepRenumbered(slots: seq<Slot>, slots': seq<Slot>, init: seq<int>, init': seq<int>, ppn: nat, fixedNames: seq<Option<int>>,
                                          pi: seq<int>, inv: seq<int>, v: View, w: View)
    requires Renumbers(slots, slots', pi, inv) && NoTies(slots) && ViewWithin(v, |slots|) && |init'| == |slots'|
    requires LoopStep(slots, init, ppn, fixedNames, v, w)
    ensures ViewWithin(w, |slots|)
    ensures LoopStep(slots', init', ppn, fixedNames, RenumberedView(pi, inv, v), RenumberedView(pi, inv, w))
  {
    hide StepBy, RenumberedView;
    var p: nat, at: nat :| StepBy(slots, init, ppn, fixedNames, v, p, at, w);
    StepParts(slots, slots', init, init', ppn, fixedNames, pi, inv, v, p, at, w);
  }

  lemma {:induction false} StepParts(slots: seq<Slot>, slots': seq<Slot>, init: seq<int>, init': seq<int>, ppn: nat, fixedNames: seq<Option<int>>,
                                     pi: seq<int>, inv: seq<int>, v: View, p: nat, at: nat, w: View)
    requires Renumbers(slots, slots', pi, inv) && NoTies(slots) && ViewWithin(v, |slots|) && |init'| == |slots'|
    requires StepBy(slots, init, ppn, fixedNames, v, p, at, w)
    ensures ViewWithin(w, |slots|) && p < |pi| && pi[p] >= 0
    ensures StepBy(slots', init', ppn, fixedNames, RenumberedView(pi, inv, v), pi[p], at, RenumberedView(pi, inv, w))
  {
    PickRenumbered(slots, slots', init, init', ppn, pi, inv, v, p, at);
    hide FirstCandidate, InPlace, Commits, UsedUp, Base, PickStep;
    var u := AfterPick(slots, ppn, v, p, at);
    if |u.tmp| >= ppn {
      CommitRenumbered(slots, slots', pi, inv, u, slots[p].node, UsedUp(fixedNames, v.nodes, slots[p].node), w.marks);
    }
  }

  lemma {:induction false} BeginRenumbered(slots: seq<Slot>, slots': seq<Slot>, init: seq<int>, init': seq<int>, pi: seq<int>, inv: seq<int>)
    requires Renumbers(slots, slots', pi, inv) && |init| == |slots|
    requires |init'| == |slots'| && forall x :: 0 <= x < |slots| ==> init'[pi[x]] == init[x]
    ensures ViewWithin(Begin(init), |slots|) && RenumberedView(pi, inv, Begin(init)) == Begin(init')
  {
    forall y | 0 <= y < |init'|
      ensures init'[y] == init[inv[y]]
    {
      assert pi[inv[y]] == y;
    }
    assert RenumberedMarks(inv, init) == init';
  }

  /** A whole run, in the other table. */
  lemma {:induction false} RunRenumbered(slots: seq<Slot>, slots': seq<Slot>, init: seq<int>, init': seq<int>, ppn: nat, fixedNames: seq<Option<int>>,
                                         pi: seq<int>, inv: seq<int>, run: seq<View>) returns (run': seq<View>)
    requires Renumbers(slots, slots', pi, inv) && NoTies(slots) && LoopRun(slots, init, ppn, fixedNames, run)
    requires |init'| == |slots'| && forall x :: 0 <= x < |slots| ==> init'[pi[x]] == init[x]
    ensures LoopRun(slots', init', ppn, fixedNames, run')
    ensures ViewWithin(run[|run| - 1], |slots|) && run'[|run'| - 1] == RenumberedView(pi, inv, run[|run| - 1])
  {
    if |run| == 1 {
      BeginRenumbered(slots, slots', init, init', pi, inv);
      run' := [Begin(init')];
    } else {
      RunFront(slots, init, ppn, fixedNames, run);
      hide LoopStep, Renumbers, NoTies, RenumberedView, ViewWithin;
      var front' := RunRenumbered(slots, slots', init, init', ppn, fixedNames, pi, inv, run[..|run| - 1]);
      StepRenumbered(slots, slots', init, init', ppn, fixedNames, pi, inv, run[|run| - 2], run[|run| - 1]);
      hide LoopRun;
      RunGrows(slots', init', ppn, fixedNames, front', RenumberedView(pi, inv, run[|run| - 1]));
      run' := front' + [RenumberedView(pi, inv, run[|run| - 1])];
    }
  }

  lemma {:induction false} AllGivenRenumbered(pi: seq<int>, takes: seq<set<int>>)
    ensures AllGiven(RenumberedSets(pi, takes)) == RenumberedSet(pi, AllGiven(takes))
  {
    if takes != [] {
      var l := |takes| - 1;
      AllGivenRenumbered(pi, takes[..l]);
      assert RenumberedSets(pi, takes)[..l] == RenumberedSets(pi, takes[..l]);
    }
  }
}
