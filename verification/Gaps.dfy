/**
 The gap list (plan_gaps.cpp, plan_gaps_memory.cpp): idle CPUs of the plan as a
 list of intervals, ordered in time and disjoint. Amounts of memory and the job
 that follows a gap are not modelled.
 */
module Gaps {
  import opened PlanLists

  /** The CPUs of one node inside a gap (plan_gap_mem). */
  datatype NodeCpus = NodeCpus(node: int, cpus: int)

  datatype Gap = Gap(startTime: int, endTime: int, duration: int, usage: int, nodes: seq<NodeCpus>)

  /** What is measured: all CPUs of a gap, or those of one node. */
  datatype Measure = Usage | OnNode(node: int)

  function CpusOf(ns: seq<NodeCpus>, node: int): int {
    if ns == [] then 0
    else CpusOf(ns[..|ns| - 1], node) + if ns[|ns| - 1].node == node then ns[|ns| - 1].cpus else 0
  }

  function TotalCpus(ns: seq<NodeCpus>): int {
    if ns == [] then 0 else TotalCpus(ns[..|ns| - 1]) + ns[|ns| - 1].cpus
  }

  function Amount(g: Gap, m: Measure): int {
    match m
    case Usage => g.usage
    case OnNode(n) => CpusOf(g.nodes, n)
  }

  /** What one gap offers at an instant. */
  function Cover(g: Gap, t: int, m: Measure): int {
    if g.startTime <= t < g.endTime then Amount(g, m) else 0
  }

  /** What all gaps together offer at an instant. */
  function Profile(gs: seq<Gap>, t: int, m: Measure): int {
    if gs == [] then 0 else Profile(gs[..|gs| - 1], t, m) + Cover(gs[|gs| - 1], t, m)
  }

  ghost predicate WellFormed(g: Gap) {
    && g.startTime < g.endTime
    && g.duration == g.endTime - g.startTime
    && g.usage == TotalCpus(g.nodes)
  }

  /** Well-formed gaps in time order that do not overlap. */
  ghost predicate GapSequence(gs: seq<Gap>) {
    && (forall i :: 0 <= i < |gs| ==> WellFormed(gs[i]))
    && (forall i, j :: 0 <= i < j < |gs| ==> gs[i].endTime <= gs[j].startTime)
  }

  lemma {:induction false} ProfileConcat(a: seq<Gap>, b: seq<Gap>, t: int, m: Measure)
    ensures Profile(a + b, t, m) == Profile(a, t, m) + Profile(b, t, m)
  {
    if b == [] {
      assert a + b == a;
    } else {
      assert (a + b)[..|a + b| - 1] == a + b[..|b| - 1];
      ProfileConcat(a, b[..|b| - 1], t, m);
    }
  }

  lemma {:induction false} CpusUpdate(ns: seq<NodeCpus>, j: nat, c: int, node: int)
    requires j < |ns|
    ensures var ns' := ns[j := NodeCpus(ns[j].node, ns[j].cpus + c)];
            && CpusOf(ns', node) == CpusOf(ns, node) + (if ns[j].node == node then c else 0)
            && TotalCpus(ns') == TotalCpus(ns) + c
  {
    var l := |ns| - 1;
    var ns' := ns[j := NodeCpus(ns[j].node, ns[j].cpus + c)];
    if j == l {
      assert ns'[..l] == ns[..l];
    } else {
      assert ns'[..l] == ns[..l][j := NodeCpus(ns[j].node, ns[j].cpus + c)];
      CpusUpdate(ns[..l], j, c, node);
    }
  }

  lemma {:induction false} CpusUpdateAll(ns: seq<NodeCpus>, j: nat, c: int)
    requires j < |ns|
    ensures var ns' := ns[j := NodeCpus(ns[j].node, ns[j].cpus + c)];
            && (forall n :: CpusOf(ns', n) == CpusOf(ns, n) + (if ns[j].node == n then c else 0))
            && TotalCpus(ns') == TotalCpus(ns) + c
  {
    CpusUpdate(ns, j, c, 0);
    forall n {
      CpusUpdate(ns, j, c, n);
    }
  }

  /** A list of CPUs per node that offers what two others do together. */
  ghost predicate Merged(ns: seq<NodeCpus>, a: seq<NodeCpus>, b: seq<NodeCpus>) {
    && (forall n :: CpusOf(ns, n) == CpusOf(a, n) + CpusOf(b, n))
    && TotalCpus(ns) == TotalCpus(a) + TotalCpus(b)
  }

  lemma {:induction false} MergedNone(a: seq<NodeCpus>)
    ensures Merged(a, a, [])
  {
  }

  lemma {:induction false} MergedKnown(ns: seq<NodeCpus>, a: seq<NodeCpus>, src: seq<NodeCpus>, i: nat, j: nat)
    requires i < |src| && Merged(ns, a, src[..i]) && j < |ns| && ns[j].node == src[i].node
    ensures Merged(ns[j := NodeCpus(ns[j].node, ns[j].cpus + src[i].cpus)], a, src[..i + 1])
  {
    CpusUpdateAll(ns, j, src[i].cpus);
    assert src[..i + 1][..i] == src[..i];
  }

  lemma {:induction false} MergedNew(ns: seq<NodeCpus>, a: seq<NodeCpus>, src: seq<NodeCpus>, i: nat)
    requires i < |src| && Merged(ns, a, src[..i])
    ensures Merged(ns + [src[i]], a, src[..i + 1])
  {
    assert src[..i + 1][..i] == src[..i];
    assert (ns + [src[i]])[..|ns|] == ns;
  }

  lemma {:induction false} MergedAmounts(was: Gap, src: Gap, ns: seq<NodeCpus>)
    requires Merged(ns, was.nodes, src.nodes)
    ensures var now := was.(usage := was.usage + src.usage, nodes := ns);
            && (forall m :: Amount(now, m) == Amount(was, m) + Amount(src, m))
            && TotalCpus(now.nodes) == TotalCpus(was.nodes) + TotalCpus(src.nodes)
  {
  }

  /** Adds the CPUs of one gap to another one, node by node. */
  method AddMemGapToGap(target: Item<Gap>, source: Item<Gap>)
    requires target != source
    modifies target`value
    ensures forall m :: Amount(target.value, m) == Amount(old(target.value), m) + Amount(source.value, m)
    ensures TotalCpus(target.value.nodes) == TotalCpus(old(target.value).nodes) + TotalCpus(source.value.nodes)
    ensures target.value == old(target.value).(usage := target.value.usage, nodes := target.value.nodes)
  {
    hide Merged, TotalCpus, Amount, CpusOf;
    var was := target.value;
    var src := source.value.nodes;
    var ns := was.nodes;
    MergedNone(ns);
    assert src[..0] == [];
    for i := 0 to |src|
      invariant target.value == was && source.value.nodes == src
      invariant Merged(ns, was.nodes, src[..i])
    {
      var j := 0;
      while j < |ns| && src[i].node != ns[j].node
        invariant j <= |ns|
      {
        j := j + 1;
      }
      if j < |ns| {
        MergedKnown(ns, was.nodes, src, i, j);
        ns := ns[j := NodeCpus(ns[j].node, ns[j].cpus + src[i].cpus)];
      } else {
        MergedNew(ns, was.nodes, src, i);
        ns := ns + [src[i]];
      }
    }
    assert src[..|src|] == src;
    MergedAmounts(was, source.value, ns);
    target.value := was.(usage := was.usage + source.value.usage, nodes := ns);
  }

  /** The second list offers what the first one does, plus the gap. */
  ghost predicate Adds(gs: seq<Gap>, hs: seq<Gap>, g: Gap) {
    forall t, m :: Profile(hs, t, m) == Profile(gs, t, m) + Cover(g, t, m)
  }

  /** The first list and a gap still to be added offer what the second list and gap do. */
  ghost predicate SameOffer(gs: seq<Gap>, g: Gap, hs: seq<Gap>, h: Gap) {
    forall t, m :: Profile(gs, t, m) + Cover(g, t, m) == Profile(hs, t, m) + Cover(h, t, m)
  }

  lemma {:induction false} OfferAdded(gs: seq<Gap>, g: Gap, hs: seq<Gap>, h: Gap, ws: seq<Gap>)
    requires SameOffer(gs, g, hs, h) && Adds(hs, ws, h)
    ensures Adds(gs, ws, g)
  {
    forall t, m
      ensures Profile(ws, t, m) == Profile(gs, t, m) + Cover(g, t, m)
    {
      assert Profile(ws, t, m) == Profile(hs, t, m) + Cover(h, t, m);
    }
  }

  lemma {:induction false} OfferUnchanged(gs: seq<Gap>, g: Gap)
    ensures SameOffer(gs, g, gs, g)
  {
  }

  lemma {:induction false} NextGap(gs: seq<Gap>, k: nat)
    requires GapSequence(gs) && k < |gs|
    ensures gs[k].startTime < gs[k].endTime
    ensures k + 1 < |gs| ==> gs[k].endTime < gs[k + 1].endTime
  {
    assert WellFormed(gs[k]);
    if k + 1 < |gs| {
      assert WellFormed(gs[k + 1]);
    }
  }

  function Before(g: Gap, cut: int): Gap {
    g.(endTime := cut, duration := cut - g.startTime)
  }

  function After(g: Gap, cut: int): Gap {
    g.(startTime := cut, duration := g.endTime - cut)
  }

  lemma {:induction false} ProfileInsert(gs: seq<Gap>, k: nat, g: Gap, t: int, m: Measure)
    requires k <= |gs|
    ensures Profile(Insert(gs, k, g), t, m) == Profile(gs, t, m) + Cover(g, t, m)
  {
    var a, b := gs[..k], gs[k..];
    assert gs == a + b;
    ProfileConcat(a + [g], b, t, m);
    ProfileConcat(a, b, t, m);
  }

  lemma {:induction false} ProfileReplace(gs: seq<Gap>, k: nat, g: Gap, t: int, m: Measure)
    requires k < |gs|
    ensures Profile(gs[k := g], t, m) == Profile(gs, t, m) - Cover(gs[k], t, m) + Cover(g, t, m)
  {
    var a, b := gs[..k], gs[k + 1..];
    assert gs == a + [gs[k]] + b && gs[k := g] == a + [g] + b;
    ProfileConcat(a + [gs[k]], b, t, m);
    ProfileConcat(a + [g], b, t, m);
  }

  /** Putting a gap where there is room for it keeps the order and adds what the gap offers. */
  lemma {:induction false} InsertedGap(gs: seq<Gap>, k: nat, g: Gap)
    requires GapSequence(gs) && WellFormed(g) && k <= |gs|
    requires k > 0 ==> gs[k - 1].endTime <= g.startTime
    requires k < |gs| ==> g.endTime <= gs[k].startTime
    ensures GapSequence(Insert(gs, k, g)) && Adds(gs, Insert(gs, k, g), g)
  {
    InsertedInOrder(gs, k, g);
    forall t, m
      ensures Profile(Insert(gs, k, g), t, m) == Profile(gs, t, m) + Cover(g, t, m)
    {
      ProfileInsert(gs, k, g, t, m);
    }
  }

  lemma {:induction false} InsertedInOrder(gs: seq<Gap>, k: nat, g: Gap)
    requires GapSequence(gs) && WellFormed(g) && k <= |gs|
    requires k > 0 ==> gs[k - 1].endTime <= g.startTime
    requires k < |gs| ==> g.endTime <= gs[k].startTime
    ensures GapSequence(Insert(gs, k, g))
  {
    hide WellFormed;
    var r := Insert(gs, k, g);
    GapSides(gs, k, g);
    assert forall i :: 0 <= i < |r| ==> r[i] == if i < k then gs[i] else if i == k then g else gs[i - 1];
  }

  /** All gaps in front of position k end before the gap begins, and all from there on begin after it ends. */
  lemma {:induction false} GapSides(gs: seq<Gap>, k: nat, g: Gap)
    requires GapSequence(gs) && k <= |gs|
    requires k > 0 ==> gs[k - 1].endTime <= g.startTime
    requires k < |gs| ==> g.endTime <= gs[k].startTime
    ensures forall i :: 0 <= i < k ==> gs[i].endTime <= g.startTime
    ensures forall i :: k <= i < |gs| ==> g.endTime <= gs[i].startTime
  {
    assert k > 0 ==> WellFormed(gs[k - 1]);
    assert k < |gs| ==> WellFormed(gs[k]);
  }

  lemma {:induction false} LastsLonger(g: Gap)
    requires WellFormed(g)
    ensures g.startTime < g.endTime
  {
  }

  /** The new gap begins before the gap it meets: its front piece goes in front of that gap. */
  lemma {:induction false} CutNewGap(gs: seq<Gap>, k: nat, g: Gap)
    requires GapSequence(gs) && WellFormed(g) && k < |gs|
    requires g.startTime < gs[k].startTime < g.endTime
    requires k > 0 ==> gs[k - 1].endTime <= g.startTime
    ensures var front, back := Before(g, gs[k].startTime), After(g, gs[k].startTime);
            var hs := Insert(gs, k, front);
            GapSequence(hs) && WellFormed(back) && SameOffer(gs, g, hs, back)
  {
    var front, back := Before(g, gs[k].startTime), After(g, gs[k].startTime);
    var hs := Insert(gs, k, front);
    InsertedGap(gs, k, front);
    forall t, m
      ensures Profile(gs, t, m) + Cover(g, t, m) == Profile(hs, t, m) + Cover(back, t, m)
    {
      assert Profile(hs, t, m) == Profile(gs, t, m) + Cover(front, t, m);
    }
  }

  /** Cutting a gap of the list in two changes nothing of what the list offers. */
  lemma {:induction false} CutOldGap(gs: seq<Gap>, k: nat, cut: int)
    requires GapSequence(gs) && k < |gs| && gs[k].startTime < cut < gs[k].endTime
    ensures var front, back := Before(gs[k], cut), After(gs[k], cut);
            var hs := Insert(gs[k := back], k, front);
            && hs == Insert(gs[k := front], k + 1, back)
            && GapSequence(hs) && forall g :: SameOffer(gs, g, hs, g)
  {
    var front, back := Before(gs[k], cut), After(gs[k], cut);
    var hs := Insert(gs[k := back], k, front);
    assert hs == Insert(gs[k := front], k + 1, back);
    ShrunkGap(gs, k, back);
    InsertedGap(gs[k := back], k, front);
    forall t, m
      ensures Profile(hs, t, m) == Profile(gs, t, m)
    {
      ProfileReplace(gs, k, back, t, m);
      ProfileInsert(gs[k := back], k, front, t, m);
    }
  }

  lemma {:induction false} ShrunkGap(gs: seq<Gap>, k: nat, g: Gap)
    requires GapSequence(gs) && k < |gs| && WellFormed(g)
    requires gs[k].startTime <= g.startTime && g.endTime <= gs[k].endTime
    ensures GapSequence(gs[k := g])
    ensures k > 0 ==> gs[k - 1].endTime <= gs[k].startTime
  {
  }

  /** Pouring the new gap into a gap with the same interval, or one it outlasts. */
  lemma {:induction false} FilledGap(gs: seq<Gap>, k: nat, g: Gap, full: Gap)
    requires GapSequence(gs) && WellFormed(g) && k < |gs|
    requires g.startTime == gs[k].startTime && gs[k].endTime <= g.endTime
    requires full == gs[k].(usage := full.usage, nodes := full.nodes)
    requires forall m :: Amount(full, m) == Amount(gs[k], m) + Amount(g, m)
    requires TotalCpus(full.nodes) == TotalCpus(gs[k].nodes) + TotalCpus(g.nodes)
    ensures GapSequence(gs[k := full])
    ensures gs[k].endTime == g.endTime ==> Adds(gs, gs[k := full], g)
    ensures gs[k].endTime < g.endTime ==>
              var rest := After(g, gs[k].endTime);
              WellFormed(rest) && SameOffer(gs, g, gs[k := full], rest)
  {
    assert WellFormed(gs[k]);
    var hs, e := gs[k := full], gs[k].endTime;
    assert Amount(full, Usage) == Amount(gs[k], Usage) + Amount(g, Usage);
    assert WellFormed(full);
    forall t, m
      ensures Profile(hs, t, m) == Profile(gs, t, m) + if t < e then Cover(g, t, m) else 0
    {
      ProfileReplace(gs, k, full, t, m);
    }
  }

  /** The second list offers what the first one does, plus all the gaps of the third. */
  ghost predicate AddsAll(gs: seq<Gap>, hs: seq<Gap>, news: seq<Gap>) {
    forall t, m :: Profile(hs, t, m) == Profile(gs, t, m) + Profile(news, t, m)
  }

  lemma {:induction false} AddsNone(gs: seq<Gap>)
    ensures AddsAll(gs, gs, [])
  {
  }

  lemma {:induction false} AddsOneMore(gs: seq<Gap>, hs: seq<Gap>, ws: seq<Gap>, news: seq<Gap>, k: nat)
    requires k < |news| && AddsAll(gs, hs, news[..k]) && Adds(hs, ws, news[k])
    ensures AddsAll(gs, ws, news[..k + 1])
  {
    assert news[..k + 1][..k] == news[..k];
    forall t, m
      ensures Profile(ws, t, m) == Profile(gs, t, m) + Profile(news[..k + 1], t, m)
    {
      assert Profile(ws, t, m) == Profile(hs, t, m) + Cover(news[k], t, m);
    }
  }

  /** A detached copy of a gap record. */
  method GapDuplicate(gap: Item<Gap>) returns (copy: Item<Gap>)
    ensures fresh(copy) && copy.value == gap.value && copy.successor == null && copy.predecessor == null
  {
    copy := new Item(gap.value);
  }

  ghost predicate GapList(list: PlanList<Gap>)
    reads list, list.items
  {
    list.Valid() && GapSequence(list.Values())
  }

  /** Puts the part of the new gap that lies before the gap at position k in front of it. */
  method PutFront(list: PlanList<Gap>, last: Item<Gap>, gapNew: Item<Gap>, ghost k: nat) returns (copy: Item<Gap>)
    requires GapList(list) && WellFormed(gapNew.value) && gapNew !in list.items
    requires k < |list.items| && list.items[k] == last
    requires gapNew.value.startTime < last.value.startTime < gapNew.value.endTime
    requires k > 0 ==> list.items[k - 1].value.endTime <= gapNew.value.startTime
    modifies list, list.items`successor, list.items`predecessor, gapNew`value
    ensures GapList(list) && WellFormed(gapNew.value)
    ensures fresh(copy) && list.items == Insert(old(list.items), k, copy)
    ensures gapNew.value == After(old(gapNew.value), last.value.startTime)
    ensures SameOffer(old(list.Values()), old(gapNew.value), list.Values(), gapNew.value)
  {
    hide GapSequence, SameOffer, Adds, Profile, Cover, TotalCpus, PlanList.Valid;
    copy := GapDuplicate(gapNew);
    copy.value := Before(gapNew.value, last.value.startTime);
    CutNewGap(list.Values(), k, gapNew.value);
    gapNew.value := After(gapNew.value, last.value.startTime);
    PutBefore(list, last, copy, k);
  }

  /** Splits the gap at position k; its front part becomes a new item. */
  method SplitOffFront(list: PlanList<Gap>, last: Item<Gap>, cut: int, ghost k: nat) returns (copy: Item<Gap>)
    requires GapList(list) && k < |list.items| && list.items[k] == last
    requires last.value.startTime < cut < last.value.endTime
    modifies list, list.items`successor, list.items`predecessor, last`value
    ensures GapList(list)
    ensures fresh(copy) && list.items == Insert(old(list.items), k, copy)
    ensures last.value == After(old(last.value), cut)
    ensures forall g :: SameOffer(old(list.Values()), g, list.Values(), g)
  {
    hide GapSequence, SameOffer, Adds, Profile, Cover, TotalCpus, PlanList.Valid;
    copy := GapDuplicate(last);
    copy.value := Before(last.value, cut);
    CutOldGap(list.Values(), k, cut);
    SetValue(list, last, After(last.value, cut), k);
    PutBefore(list, last, copy, k);
  }

  /** Splits the gap at position k; its back part becomes a new item. */
  method SplitOffBack(list: PlanList<Gap>, last: Item<Gap>, cut: int, ghost k: nat) returns (copy: Item<Gap>)
    requires GapList(list) && k < |list.items| && list.items[k] == last
    requires last.value.startTime < cut < last.value.endTime
    modifies list, list.items`successor, list.items`predecessor, last`value
    ensures GapList(list)
    ensures fresh(copy) && list.items == Insert(old(list.items), k + 1, copy)
    ensures last.value == Before(old(last.value), cut)
    ensures forall g :: SameOffer(old(list.Values()), g, list.Values(), g)
  {
    hide GapSequence, SameOffer, Adds, Profile, Cover, TotalCpus, PlanList.Valid;
    copy := GapDuplicate(last);
    copy.value := After(last.value, cut);
    CutOldGap(list.Values(), k, cut);
    SetValue(list, last, Before(last.value, cut), k);
    PutBehind(list, last, copy, k);
  }

  /** Pours the new gap into the gap at position k, which starts with it and does not outlast it. */
  method Fill(list: PlanList<Gap>, last: Item<Gap>, gapNew: Item<Gap>, ghost k: nat)
    requires GapList(list) && WellFormed(gapNew.value) && gapNew !in list.items
    requires k < |list.items| && list.items[k] == last
    requires gapNew.value.startTime == last.value.startTime && last.value.endTime <= gapNew.value.endTime
    modifies last`value
    ensures GapList(list) && last.value.endTime == old(last.value.endTime)
    ensures last.value.endTime == gapNew.value.endTime ==>
              Adds(old(list.Values()), list.Values(), gapNew.value)
    ensures last.value.endTime < gapNew.value.endTime ==>
              var rest := After(gapNew.value, last.value.endTime);
              WellFormed(rest) && SameOffer(old(list.Values()), gapNew.value, list.Values(), rest)
  {
    ghost var vs := list.Values();
    AddMemGapToGap(last, gapNew);
    FilledGap(vs, k, gapNew.value, last.value);
    assert list.Values() == vs[k := last.value];
  }

  /** The new gap ends first: it goes into the front part of the gap at position k. */
  method FillFront(list: PlanList<Gap>, last: Item<Gap>, gapNew: Item<Gap>, ghost k: nat)
    requires GapList(list) && WellFormed(gapNew.value) && gapNew !in list.items
    requires k < |list.items| && list.items[k] == last
    requires gapNew.value.startTime == last.value.startTime && gapNew.value.endTime < last.value.endTime
    modifies list, list.items
    ensures GapList(list)
    ensures forall i :: 0 <= i < |list.items| ==> list.items[i] in old(list.items) || fresh(list.items[i])
    ensures Adds(old(list.Values()), list.Values(), gapNew.value)
  {
    hide GapSequence, SameOffer, Adds, Profile, Cover, TotalCpus, PlanList.Valid;
    ghost var vs, g := list.Values(), gapNew.value;
    LastsLonger(g);
    var copy := SplitOffBack(list, last, gapNew.value.endTime, k);
    ghost var hs := list.Values();
    Fill(list, last, gapNew, k);
    OfferAdded(vs, g, hs, g, list.Values());
  }

  /** Puts a copy of the new gap in front of the gap at position k, or behind all gaps. */
  method InsertCopy(list: PlanList<Gap>, last: Item?<Gap>, gapNew: Item<Gap>, ghost k: nat)
    requires GapList(list) && WellFormed(gapNew.value) && k <= |list.items| && last == ItemAt(list.items, k)
    requires k > 0 ==> list.items[k - 1].value.endTime <= gapNew.value.startTime
    requires k < |list.items| ==> gapNew.value.endTime <= list.items[k].value.startTime
    modifies list, list.items`successor, list.items`predecessor
    ensures GapList(list)
    ensures forall i :: 0 <= i < |list.items| ==> list.items[i] in old(list.items) || fresh(list.items[i])
    ensures Adds(old(list.Values()), list.Values(), gapNew.value)
  {
    hide GapSequence, Adds, Profile, Cover, TotalCpus, PlanList.Valid;
    ghost var vs := list.Values();
    var copy := GapDuplicate(gapNew);
    InsertedGap(vs, k, gapNew.value);
    if last == null {
      PutLast(list, copy);
    } else {
      PutBefore(list, last, copy, k);
    }
  }

  /** Walks back to the first gap that ends behind an instant. */
  method FirstBehind(list: PlanList<Gap>, from: Item<Gap>, startTime: int) returns (last: Item<Gap>, ghost k: nat)
    requires GapList(list) && from in list.items && from.value.endTime > startTime
    ensures k < |list.items| && list.items[k] == last && last.value.endTime > startTime
    ensures k > 0 ==> list.items[k - 1].value.endTime <= startTime
  {
    hide GapSequence;
    last := from;
    k := IndexOf(list.items, last);
    while true
      invariant k < |list.items| && list.items[k] == last
      invariant last.value.endTime > startTime
      decreases k
    {
      var previous := last.predecessor;
      if previous == null || previous.value.endTime <= startTime {
        break;
      }
      last := previous;
      k := k - 1;
    }
  }

  /**
   Adds a gap to a gap list: afterwards the list offers, at every instant and on
   every node, what it offered before plus what the new gap offers.
   */
  method InsertNewGap(list: PlanList<Gap>, lastGap: Item?<Gap>, gapNew: Item<Gap>)
    requires GapList(list) && WellFormed(gapNew.value) && gapNew !in list.items
    requires lastGap != null ==> lastGap in list.items && lastGap.value.endTime > gapNew.value.startTime
    modifies list, list.items, gapNew`value
    ensures GapList(list)
    ensures forall i :: 0 <= i < |list.items| ==> list.items[i] in old(list.items) || fresh(list.items[i])
    ensures Adds(old(list.Values()), list.Values(), old(gapNew.value))
    decreases gapNew.value.endTime - gapNew.value.startTime, 1
  {
    hide GapSequence, SameOffer, Adds, Profile, Cover, TotalCpus;
    ghost var vs := list.Values();
    var last := lastGap;
    if last == null {
      last := list.last;
    }
    if last == null || last.value.endTime <= gapNew.value.startTime {
      InsertCopy(list, null, gapNew, |vs|);
      return;
    }
    ghost var k;
    last, k := FirstBehind(list, last, gapNew.value.startTime);
    if gapNew.value.endTime <= last.value.startTime {
      InsertCopy(list, last, gapNew, k);
      return;
    }
    InsertOverlapping(list, last, gapNew, k);
  }

  /** The new gap meets the gap at position k: cut one of them so that they start together. */
  method InsertOverlapping(list: PlanList<Gap>, last: Item<Gap>, gapNew: Item<Gap>, ghost k: nat)
    requires GapList(list) && WellFormed(gapNew.value) && gapNew !in list.items
    requires k < |list.items| && list.items[k] == last
    requires gapNew.value.startTime < last.value.endTime && last.value.startTime < gapNew.value.endTime
    requires k > 0 ==> list.items[k - 1].value.endTime <= gapNew.value.startTime
    modifies list, list.items, gapNew`value
    ensures GapList(list)
    ensures forall i :: 0 <= i < |list.items| ==> list.items[i] in old(list.items) || fresh(list.items[i])
    ensures Adds(old(list.Values()), list.Values(), old(gapNew.value))
    decreases gapNew.value.endTime - gapNew.value.startTime, 0, 1
  {
    hide GapSequence, SameOffer, Adds, Profile, Cover, TotalCpus, PlanList.Valid;
    ghost var vs, g := list.Values(), gapNew.value;
    ghost var k' := k;
    if last.value.startTime > gapNew.value.startTime {
      var copy := PutFront(list, last, gapNew, k);
      k' := k + 1;
    } else if last.value.startTime < gapNew.value.startTime {
      var copy := SplitOffFront(list, last, gapNew.value.startTime, k);
      k' := k + 1;
    } else {
      OfferUnchanged(vs, g);
    }
    ghost var hs, h := list.Values(), gapNew.value;
    InsertAligned(list, last, gapNew, k');
    OfferAdded(vs, g, hs, h, list.Values());
  }

  /** The new gap and the gap at position k start together. */
  method InsertAligned(list: PlanList<Gap>, last: Item<Gap>, gapNew: Item<Gap>, ghost k: nat)
    requires GapList(list) && WellFormed(gapNew.value) && gapNew !in list.items
    requires k < |list.items| && list.items[k] == last
    requires gapNew.value.startTime == last.value.startTime
    modifies list, list.items, gapNew`value
    ensures GapList(list)
    ensures forall i :: 0 <= i < |list.items| ==> list.items[i] in old(list.items) || fresh(list.items[i])
    ensures Adds(old(list.Values()), list.Values(), old(gapNew.value))
    decreases gapNew.value.endTime - gapNew.value.startTime, 0, 0
  {
    hide GapSequence, SameOffer, Adds, Profile, Cover, TotalCpus, WellFormed;
    ghost var vs, g := list.Values(), gapNew.value;
    NextGap(vs, k);
    LastsLonger(g);
    if last.value.endTime == gapNew.value.endTime {
      Fill(list, last, gapNew, k);
    } else if gapNew.value.endTime < last.value.endTime {
      FillFront(list, last, gapNew, k);
    } else {
      Fill(list, last, gapNew, k);
      gapNew.value := After(gapNew.value, last.value.endTime);
      ghost var hs, h := list.Values(), gapNew.value;
      InsertNewGap(list, last.successor, gapNew);
      OfferAdded(vs, g, hs, h, list.Values());
    }
  }
}
