/**
 The order of the job list: the prioritisation pass of update_sched
 (plan_operations.cpp) and list_adjust_job_position (plan_list_operations.cpp).
 */
module JobOrder {
  import opened PlanLists
  import opened PlanJobs

  // ----- the prioritisation pass

  /** Jobs that the pass moves to the front. */
  predicate Prioritised(job: Job, now: int) {
    && job.availableAfter <= now && job.state == Queued && job.priority != 56
    && (job.account == "galaxyelixir" || job.priority == 42 || job.reqGpu > 0)
  }

  /** The flagged elements, last one first. */
  ghost function FlaggedReversed<X>(xs: seq<X>, flags: seq<bool>): seq<X>
    requires |flags| == |xs|
  {
    if xs == [] then []
    else
      var l := |xs| - 1;
      (if flags[l] then [xs[l]] else []) + FlaggedReversed(xs[..l], flags[..l])
  }

  /** The other elements, in order. */
  ghost function Unflagged<X>(xs: seq<X>, flags: seq<bool>): seq<X>
    requires |flags| == |xs|
  {
    if xs == [] then []
    else
      var l := |xs| - 1;
      Unflagged(xs[..l], flags[..l]) + if flags[l] then [] else [xs[l]]
  }

  /** The list after the first n elements have been treated. */
  ghost function Treated<X>(xs: seq<X>, flags: seq<bool>, n: nat): seq<X>
    requires |flags| == |xs| && n <= |xs|
  {
    FlaggedReversed(xs[..n], flags[..n]) + Unflagged(xs[..n], flags[..n]) + xs[n..]
  }

  lemma {:induction false} PartsLength<X>(xs: seq<X>, flags: seq<bool>)
    requires |flags| == |xs|
    ensures |FlaggedReversed(xs, flags)| + |Unflagged(xs, flags)| == |xs|
  {
    if xs != [] {
      PartsLength(xs[..|xs| - 1], flags[..|xs| - 1]);
    }
  }

  /** Where the elements of the parts come from. */
  lemma {:induction false} FlaggedOrigin<X>(xs: seq<X>, flags: seq<bool>, p: nat) returns (i: nat)
    requires |flags| == |xs| && p < |FlaggedReversed(xs, flags)|
    ensures i < |xs| && flags[i] && FlaggedReversed(xs, flags)[p] == xs[i]
  {
    var l := |xs| - 1;
    if flags[l] && p == 0 {
      i := l;
    } else {
      i := FlaggedOrigin(xs[..l], flags[..l], if flags[l] then p - 1 else p);
    }
  }

  lemma {:induction false} UnflaggedOrigin<X>(xs: seq<X>, flags: seq<bool>, p: nat) returns (i: nat)
    requires |flags| == |xs| && p < |Unflagged(xs, flags)|
    ensures i < |xs| && !flags[i] && Unflagged(xs, flags)[p] == xs[i]
  {
    var l := |xs| - 1;
    if p < |Unflagged(xs[..l], flags[..l])| {
      i := UnflaggedOrigin(xs[..l], flags[..l], p);
    } else {
      i := l;
    }
  }

  /** An element that the pass meets: one treated before, or one still to come, which is in its place. */
  lemma {:induction false} TreatedAt<X>(xs: seq<X>, flags: seq<bool>, n: nat, p: nat) returns (i: nat)
    requires |flags| == |xs| && n <= |xs| && p < |xs|
    ensures |Treated(xs, flags, n)| == |xs|
    ensures i < |xs| && Treated(xs, flags, n)[p] == xs[i]
    ensures if p < n then i < n else i == p
  {
    PartsLength(xs[..n], flags[..n]);
    var a := |FlaggedReversed(xs[..n], flags[..n])|;
    if p < a {
      i := FlaggedOrigin(xs[..n], flags[..n], p);
    } else if p < n {
      i := UnflaggedOrigin(xs[..n], flags[..n], p - a);
    } else {
      i := p;
    }
  }

  lemma {:induction false} TreatedMembers(xs: seq<Item<Job>>, flags: seq<bool>, n: nat)
    requires |flags| == |xs| && n <= |xs|
    ensures |Treated(xs, flags, n)| == |xs|
    ensures forall p :: 0 <= p < |xs| ==> Treated(xs, flags, n)[p] in xs
  {
    TreatedLength(xs, flags, n);
    forall p | 0 <= p < |xs|
      ensures Treated(xs, flags, n)[p] in xs
    {
      var i := TreatedAt(xs, flags, n, p);
    }
  }

  lemma {:induction false} TreatedLength<X>(xs: seq<X>, flags: seq<bool>, n: nat)
    requires |flags| == |xs| && n <= |xs|
    ensures |Treated(xs, flags, n)| == |xs|
  {
    PartsLength(xs[..n], flags[..n]);
  }

  /** Treating one more element: it moves to the front, or stays. */
  lemma {:induction false} TreatNext<X>(xs: seq<X>, flags: seq<bool>, n: nat)
    requires |flags| == |xs| && n < |xs|
    ensures |Treated(xs, flags, n)| == |xs|
    ensures !flags[n] ==> Treated(xs, flags, n + 1) == Treated(xs, flags, n)
    ensures flags[n] ==> Treated(xs, flags, n + 1) == [xs[n]] + Delete(Treated(xs, flags, n), n)
  {
    PartsLength(xs[..n], flags[..n]);
    assert xs[..n + 1][..n] == xs[..n] && flags[..n + 1][..n] == flags[..n];
    assert xs[n..] == [xs[n]] + xs[n + 1..];
  }

  /** The flags of the jobs of a list. */
  ghost function Flags(js: seq<Job>, now: int): (flags: seq<bool>)
    ensures |flags| == |js| && forall i :: 0 <= i < |js| ==> flags[i] == Prioritised(js[i], now)
  {
    seq(|js|, i requires 0 <= i < |js| => Prioritised(js[i], now))
  }

  /** The value of a job after the pass has treated the first n. */
  function MarkedJob(job: Job, flag: bool): Job {
    if flag then job.(priority := 56) else job
  }

  /** The state of the pass: n jobs treated, the walk at position p. */
  ghost predicate Passing(list: PlanList<Job>, items: seq<Item<Job>>, was: seq<Job>, flags: seq<bool>, n: nat, p: nat)
    reads list, list.items, items
  {
    && |was| == |flags| == |items| && p <= n <= |items|
    && (forall i, j :: 0 <= i < j < |items| ==> items[i] != items[j])
    && list.Valid() && list.items == Treated(items, flags, n)
    && list.current == ItemAt(list.items, p)
    && forall i :: 0 <= i < |items| ==> items[i].value == MarkedJob(was[i], i < n && flags[i])
  }

  /** Tests the current job; a prioritised one is marked and moved to the front. */
  method TreatJob(jobs: PlanList<Job>, job: Item<Job>, now: int, ghost items: seq<Item<Job>>, ghost was: seq<Job>,
                  ghost flags: seq<bool>, ghost n: nat, ghost p: nat) returns (moved: bool)
    requires Passing(jobs, items, was, flags, n, p) && job == jobs.current && flags == Flags(was, now)
    modifies jobs, items
    ensures if moved then p == n && Passing(jobs, items, was, flags, n + 1, 0)
            else Passing(jobs, items, was, flags, if p == n then n + 1 else n, p)
    ensures jobs.current != null
  {
    hide Treated, FlaggedReversed, Unflagged;
    TreatedMembers(items, flags, n);
    assert p < |items|;
    ghost var i := TreatedAt(items, flags, n, p);
    assert job == items[i];
    if p == n {
      TreatNext(items, flags, n);
    }
    moved := false;
    if job.value.availableAfter > now {
      return;
    }
    if job.value.state != Queued {
      return;
    }
    if job.value.priority == 56 {
      return;
    }
    ghost var before := job.value;
    var j := job.value;
    if j.account == "galaxyelixir" {
      j := j.(priority := 42);
    }
    if j.priority == 42 || j.reqGpu > 0 {
      assert Prioritised(before, now);
      assert i == n;
      MoveMarked(jobs, job, j.(priority := 56), items, was, flags, n);
      moved := true;
    }
  }

  /** Moves the next job to the front and marks it. */
  method MoveMarked(jobs: PlanList<Job>, job: Item<Job>, marked: Job, ghost items: seq<Item<Job>>, ghost was: seq<Job>,
                    ghost flags: seq<bool>, ghost n: nat)
    requires Passing(jobs, items, was, flags, n, n) && n < |items| && flags[n]
    requires job == items[n] == jobs.current && marked == was[n].(priority := 56)
    modifies jobs, items
    ensures Passing(jobs, items, was, flags, n + 1, 0) && jobs.current != null
  {
    hide Treated, FlaggedReversed, Unflagged;
    TreatedMembers(items, flags, n);
    TreatNext(items, flags, n);
    MoveToFront(jobs, job, n);
    job.value := marked;
  }

  method MoveToFront(jobs: PlanList<Job>, job: Item<Job>, ghost n: nat)
    requires jobs.Valid() && n < |jobs.items| && jobs.items[n] == job
    modifies jobs, jobs.items`successor, jobs.items`predecessor
    ensures jobs.Valid() && jobs.items == [job] + Delete(old(jobs.items), n) && jobs.current == job
  {
    assert IndexOf(jobs.items, job) == n;
    jobs.MoveItem(job, null);
  }

  /**
   Moves prioritised jobs to the front of the list that it walks, and starts over
   behind the moved one. In the end the prioritised jobs come first, the last one
   of them leading, and all other jobs follow in their order.
   */
  method Prioritise(jobs: PlanList<Job>, now: int)
    requires jobs.Valid()
    modifies jobs, jobs.items
    ensures jobs.Valid()
    ensures var flags := Flags(old(jobs.Values()), now);
            jobs.items == FlaggedReversed(old(jobs.items), flags) + Unflagged(old(jobs.items), flags)
    ensures jobs.Values() == PassedJobs(old(jobs.Values()), now)
    ensures multiset(jobs.items) == multiset(old(jobs.items))
    ensures forall i :: 0 <= i < |jobs.items| ==> jobs.items[i] in old(jobs.items)
    ensures forall i :: 0 <= i < |old(jobs.items)| ==>
              old(jobs.items)[i].value == MarkedJob(old(jobs.Values())[i], Flags(old(jobs.Values()), now)[i])
    ensures forall i :: 0 <= i < |old(jobs.items)| ==>
              var was, job := old(jobs.Values())[i], old(jobs.items)[i].value;
              if && was.state == Queued && was.availableAfter <= now && was.priority != 56
                 && (was.account == "galaxyelixir" || was.priority == 42 || was.reqGpu >= 1)
              then job == was.(priority := 56)
              else job == was
    ensures InPassOrder(old(jobs.items), old(jobs.Values()), jobs.items, CurrentRecords(old(jobs.items)))
  {
    hide InPassOrder, Treated, FlaggedReversed, Unflagged, Passing, PlanList.Valid, PassedJobs;
    ghost var items, was := jobs.items, jobs.Values();
    ghost var flags := Flags(was, now);
    ghost var n: nat, p: nat := 0, 0;
    var job := BeginPass(jobs, flags);
    while job != null
      invariant Passing(jobs, items, was, flags, n, p) && job == jobs.current
      invariant flags == Flags(was, now) && n <= |items|
      decreases |items| - n, |items| - p
    {
      PassingBounds(jobs, items, was, flags, n, p);
      var moved := TreatJob(jobs, job, now, items, was, flags, n, p);
      n := if p == n then n + 1 else n;
      p := if moved then 0 else p;
      job := StepOn(jobs, items, was, flags, n, p);
      p := p + 1;
    }
    PassEnds(jobs, items, was, flags, n, p, now);
    PassedItems(items, was, now, jobs.items, CurrentRecords(items));
  }

  ghost function CurrentRecords(items: seq<Item<Job>>): (vs: seq<Job>)
    reads items
    ensures |vs| == |items| && forall i :: 0 <= i < |items| ==> vs[i] == items[i].value
  {
    seq(|items|, i requires 0 <= i < |items| reads items => items[i].value)
  }

  method BeginPass(jobs: PlanList<Job>, ghost flags: seq<bool>) returns (job: Item?<Job>)
    requires jobs.Valid() && |flags| == |jobs.items|
    modifies jobs`current
    ensures Passing(jobs, jobs.items, old(jobs.Values()), flags, 0, 0) && job == jobs.current
  {
    hide Treated, FlaggedReversed, Unflagged;
    TreatedBegins(jobs.items, flags);
    job := Rewind(jobs);
  }

  /** One step of the walk. */
  method StepOn(jobs: PlanList<Job>, ghost items: seq<Item<Job>>, ghost was: seq<Job>, ghost flags: seq<bool>,
                ghost n: nat, ghost p: nat) returns (job: Item?<Job>)
    requires Passing(jobs, items, was, flags, n, p) && p < n && jobs.current != null
    modifies jobs`current
    ensures Passing(jobs, items, was, flags, n, p + 1) && job == jobs.current
  {
    hide Treated, FlaggedReversed, Unflagged;
    TreatedMembers(items, flags, n);
    job := Advance(jobs, p);
  }

  lemma {:induction false} PassingBounds(jobs: PlanList<Job>, items: seq<Item<Job>>, was: seq<Job>, flags: seq<bool>, n: nat, p: nat)
    requires Passing(jobs, items, was, flags, n, p) && jobs.current != null
    ensures p <= n <= |items| && p < |items|
  {
    hide Treated;
    TreatedLength(items, flags, n);
  }

  lemma {:induction false} PassEnds(jobs: PlanList<Job>, items: seq<Item<Job>>, was: seq<Job>, flags: seq<bool>, n: nat, p: nat, now: int)
    requires Passing(jobs, items, was, flags, n, p) && jobs.current == null && flags == Flags(was, now)
    ensures jobs.Valid() && |was| == |items| && jobs.items == FlaggedReversed(items, flags) + Unflagged(items, flags)
    ensures jobs.Values() == PassedJobs(was, now)
    ensures multiset(jobs.items) == multiset(items)
    ensures forall i :: 0 <= i < |jobs.items| ==> jobs.items[i] in items
    ensures forall i :: 0 <= i < |items| ==> items[i].value == MarkedJob(was[i], flags[i])
    ensures forall i, j :: 0 <= i < j < |items| ==> items[i] != items[j]
  {
    hide FlaggedReversed, Unflagged, Treated;
    TreatedLength(items, flags, n);
    TreatedEnds(items, flags);
    TreatedMembers(items, flags, n);
    ValuesFollow(items, Marked(was, flags), flags);
    PassPermutes(items, flags);
  }

  lemma {:induction false} TreatedBegins<X>(xs: seq<X>, flags: seq<bool>)
    requires |flags| == |xs|
    ensures Treated(xs, flags, 0) == xs
  {
  }

  lemma {:induction false} TreatedEnds<X>(xs: seq<X>, flags: seq<bool>)
    requires |flags| == |xs|
    ensures Treated(xs, flags, |xs|) == FlaggedReversed(xs, flags) + Unflagged(xs, flags)
  {
    assert xs[..|xs|] == xs && flags[..|xs|] == flags;
  }

  /** The jobs of a list after the pass: marked prioritised ones, last one first, then the others. */
  ghost function PassedJobs(js: seq<Job>, now: int): seq<Job> {
    var flags := Flags(js, now);
    FlaggedReversed(Marked(js, flags), flags) + Unflagged(Marked(js, flags), flags)
  }

  ghost function Marked(js: seq<Job>, flags: seq<bool>): (ms: seq<Job>)
    requires |flags| == |js|
    ensures |ms| == |js| && forall i :: 0 <= i < |js| ==> ms[i] == MarkedJob(js[i], flags[i])
  {
    seq(|js|, i requires 0 <= i < |js| => MarkedJob(js[i], flags[i]))
  }

  /** A list whose items are rearranged has its records rearranged alike. */
  lemma {:induction false} ValuesFollow(items: seq<Item<Job>>, js: seq<Job>, flags: seq<bool>)
    requires |flags| == |items| == |js| && forall i :: 0 <= i < |js| ==> items[i].value == js[i]
    ensures var f, g := FlaggedReversed(items, flags), FlaggedReversed(js, flags);
            |f| == |g| && forall p :: 0 <= p < |f| ==> f[p].value == g[p]
    ensures var f, g := Unflagged(items, flags), Unflagged(js, flags);
            |f| == |g| && forall p :: 0 <= p < |f| ==> f[p].value == g[p]
  {
    if items != [] {
      var l := |items| - 1;
      ValuesFollow(items[..l], js[..l], flags[..l]);
    }
  }

  ghost function Indices(n: nat): (s: seq<nat>)
    ensures |s| == n && forall i :: 0 <= i < n ==> s[i] == i
  {
    seq(n, i => i)
  }

  /** These are the elements at these positions, which all have this flag. */
  ghost predicate TakenFrom<X>(xs: seq<X>, flags: seq<bool>, f: seq<X>, g: seq<nat>, flag: bool)
    requires |flags| == |xs|
  {
    |f| == |g| && forall p :: 0 <= p < |g| ==> g[p] < |xs| && flags[g[p]] == flag && f[p] == xs[g[p]]
  }

  ghost predicate Ascending(g: seq<nat>) {
    forall p, q :: 0 <= p < q < |g| ==> g[p] < g[q]
  }

  ghost predicate Descending(g: seq<nat>) {
    forall p, q :: 0 <= p < q < |g| ==> g[q] < g[p]
  }

  lemma {:induction false} FlaggedByIndex<X>(xs: seq<X>, flags: seq<bool>)
    requires |flags| == |xs|
    ensures TakenFrom(xs, flags, FlaggedReversed(xs, flags), FlaggedReversed(Indices(|xs|), flags), true)
    ensures Descending(FlaggedReversed(Indices(|xs|), flags))
  {
    if xs != [] {
      var l := |xs| - 1;
      assert Indices(|xs|)[..l] == Indices(l);
      FlaggedByIndex(xs[..l], flags[..l]);
      if flags[l] {
        FlaggedInFront(xs, flags, FlaggedReversed(xs[..l], flags[..l]), FlaggedReversed(Indices(l), flags[..l]));
      }
    }
  }

  lemma {:induction false} FlaggedInFront<X>(xs: seq<X>, flags: seq<bool>, f: seq<X>, g: seq<nat>)
    requires |flags| == |xs| > 0 && flags[|xs| - 1]
    requires TakenFrom(xs[..|xs| - 1], flags[..|xs| - 1], f, g, true) && Descending(g)
    ensures TakenFrom(xs, flags, [xs[|xs| - 1]] + f, [|xs| - 1] + g, true) && Descending([|xs| - 1] + g)
  {
    var l := |xs| - 1;
    var f', g' := [xs[l]] + f, [l] + g;
    forall p | 0 <= p < |g'|
      ensures g'[p] < |xs| && flags[g'[p]] && f'[p] == xs[g'[p]]
    {
      if p > 0 {
        assert g'[p] == g[p - 1] && f'[p] == f[p - 1];
      }
    }
    forall p, q | 0 <= p < q < |g'|
      ensures g'[q] < g'[p]
    {
      assert g'[q] == g[q - 1] && (p > 0 ==> g'[p] == g[p - 1]);
    }
  }

  lemma {:induction false} UnflaggedByIndex<X>(xs: seq<X>, flags: seq<bool>)
    requires |flags| == |xs|
    ensures TakenFrom(xs, flags, Unflagged(xs, flags), Unflagged(Indices(|xs|), flags), false)
    ensures Ascending(Unflagged(Indices(|xs|), flags))
  {
    if xs != [] {
      var l := |xs| - 1;
      assert Indices(|xs|)[..l] == Indices(l);
      UnflaggedByIndex(xs[..l], flags[..l]);
      UnflaggedBehind(xs, flags, Unflagged(xs[..l], flags[..l]), Unflagged(Indices(l), flags[..l]));
    }
  }

  lemma {:induction false} UnflaggedBehind<X>(xs: seq<X>, flags: seq<bool>, f: seq<X>, g: seq<nat>)
    requires |flags| == |xs| > 0
    requires TakenFrom(xs[..|xs| - 1], flags[..|xs| - 1], f, g, false) && Ascending(g)
    ensures TakenFrom(xs, flags, f, g, false)
    ensures !flags[|xs| - 1] ==> TakenFrom(xs, flags, f + [xs[|xs| - 1]], g + [|xs| - 1], false) && Ascending(g + [|xs| - 1])
  {
    var l := |xs| - 1;
    var f', g' := f + [xs[l]], g + [l];
    forall p | 0 <= p < |g'|
      ensures g'[p] < |xs| && (p < |g| ==> g'[p] == g[p] < l) && f'[p] == xs[g'[p]]
    {
      assert g'[p] == if p < |g| then g[p] else l;
    }
  }

  /** Where each element of the passed list comes from. */
  ghost function Sources(flags: seq<bool>): seq<nat> {
    FlaggedReversed(Indices(|flags|), flags) + Unflagged(Indices(|flags|), flags)
  }

  /** Flagged elements stand in front, in reversed order; the others follow in order. */
  ghost predicate PassOrder(flags: seq<bool>, src: seq<nat>) {
    && (forall p :: 0 <= p < |src| ==> src[p] < |flags|)
    && forall p, q :: 0 <= p < q < |src| ==>
         && (flags[src[q]] ==> flags[src[p]] && src[q] < src[p])
         && (!flags[src[p]] ==> !flags[src[q]] && src[p] < src[q])
  }

  lemma {:induction false} PassBySource<X>(xs: seq<X>, flags: seq<bool>)
    requires |flags| == |xs|
    ensures var r, src := FlaggedReversed(xs, flags) + Unflagged(xs, flags), Sources(flags);
            |r| == |src| == |xs| && forall p :: 0 <= p < |r| ==> src[p] < |xs| && r[p] == xs[src[p]]
    ensures PassOrder(flags, Sources(flags))
    ensures forall i :: 0 <= i < |xs| ==> i in Sources(flags)
  {
    FlaggedByIndex(xs, flags);
    UnflaggedByIndex(xs, flags);
    PartsLength(xs, flags);
    SourcesCover(flags);
    hide FlaggedReversed, Unflagged;
    var f, g := FlaggedReversed(Indices(|xs|), flags), Unflagged(Indices(|xs|), flags);
    PartsInOrder(xs, flags, FlaggedReversed(xs, flags), Unflagged(xs, flags), f, g);
  }

  lemma {:induction false} PartsInOrder<X>(xs: seq<X>, flags: seq<bool>, u: seq<X>, w: seq<X>, f: seq<nat>, g: seq<nat>)
    requires |flags| == |xs| && TakenFrom(xs, flags, u, f, true) && TakenFrom(xs, flags, w, g, false) && Descending(f) && Ascending(g)
    ensures |u + w| == |f + g| && forall p :: 0 <= p < |u + w| ==> (f + g)[p] < |xs| && (u + w)[p] == xs[(f + g)[p]]
    ensures PassOrder(flags, f + g)
  {
    var src := f + g;
    forall p | 0 <= p < |src|
      ensures src[p] < |xs| && (u + w)[p] == xs[src[p]]
    {
      assert src[p] == if p < |f| then f[p] else g[p - |f|];
      assert (u + w)[p] == if p < |f| then u[p] else w[p - |f|];
    }
    forall p, q | 0 <= p < q < |src|
      ensures flags[src[q]] ==> flags[src[p]] && src[q] < src[p]
      ensures !flags[src[p]] ==> !flags[src[q]] && src[p] < src[q]
    {
      assert src[p] == if p < |f| then f[p] else g[p - |f|];
      assert src[q] == if q < |f| then f[q] else g[q - |f|];
    }
  }

  lemma {:induction false} SourcesCover(flags: seq<bool>)
    ensures forall i :: 0 <= i < |flags| ==> i in Sources(flags)
  {
    hide FlaggedReversed, Unflagged;
    PassPermutes(Indices(|flags|), flags);
    forall i | 0 <= i < |flags|
      ensures i in Sources(flags)
    {
      assert Indices(|flags|)[i] in multiset(Indices(|flags|));
      assert i in multiset(Sources(flags));
    }
  }

  /**
   The list after the pass, in the fields of the records: queued jobs that are
   available, not marked yet, and of the favoured account, of priority 42 or asking
   for GPUs are marked and stand in front, the last one first; no other record
   changes, and no other job loses its place among its like.
   */
  lemma {:induction false} PassedInFields(js: seq<Job>, now: int) returns (src: seq<nat>)
    ensures |src| == |js| == |PassedJobs(js, now)| && forall i :: 0 <= i < |js| ==> i in src
    ensures forall p :: 0 <= p < |src| ==>
              && src[p] < |js|
              && var was, job := js[src[p]], PassedJobs(js, now)[p];
                 if && was.state == Queued && was.availableAfter <= now && was.priority != 56
                    && (was.account == "galaxyelixir" || was.priority == 42 || was.reqGpu >= 1)
                 then job == was.(priority := 56)
                 else job == was
    ensures forall p, q :: 0 <= p < q < |src| ==>
              && (PassedJobs(js, now)[q].priority != js[src[q]].priority ==> PassedJobs(js, now)[p].priority != js[src[p]].priority && src[q] < src[p])
              && (PassedJobs(js, now)[p].priority == js[src[p]].priority ==> PassedJobs(js, now)[q].priority == js[src[q]].priority && src[p] < src[q])
  {
    var flags := Flags(js, now);
    src := Sources(flags);
    PassBySource(Marked(js, flags), flags);
    hide FlaggedReversed, Unflagged, Sources, PassedJobs, PassOrder;
    var plan := PassedJobs(js, now);
    forall p | 0 <= p < |src|
      ensures src[p] < |js| && plan[p] == MarkedJob(js[src[p]], flags[src[p]])
    {
    }
    forall p, q | 0 <= p < q < |src|
      ensures plan[q].priority != js[src[q]].priority ==> plan[p].priority != js[src[p]].priority && src[q] < src[p]
      ensures plan[p].priority == js[src[p]].priority ==> plan[q].priority == js[src[q]].priority && src[p] < src[q]
    {
      PassOrderAt(flags, src, p, q);
    }
  }

  lemma {:induction false} PassOrderAt(flags: seq<bool>, src: seq<nat>, p: nat, q: nat)
    requires PassOrder(flags, src) && p < q < |src|
    ensures src[p] < |flags| && src[q] < |flags|
    ensures flags[src[q]] ==> flags[src[p]] && src[q] < src[p]
    ensures !flags[src[p]] ==> !flags[src[q]] && src[p] < src[q]
  {
  }

  /** The same for the items of the list. */
  lemma {:induction false} PassedItems(items: seq<Item<Job>>, was: seq<Job>, now: int, rest: seq<Item<Job>>, vals: seq<Job>)
    requires |was| == |items| == |vals| && forall i, j :: 0 <= i < j < |items| ==> items[i] != items[j]
    requires var flags := Flags(was, now); rest == FlaggedReversed(items, flags) + Unflagged(items, flags)
    requires forall i :: 0 <= i < |items| ==> vals[i] == MarkedJob(was[i], Flags(was, now)[i])
    ensures InPassOrder(items, was, rest, vals)
  {
    var flags := Flags(was, now);
    PassBySource(items, flags);
    var src := Sources(flags);
    hide FlaggedReversed, Unflagged, Sources;
    forall p, q, i, j | 0 <= p < q < |rest| && 0 <= i < |items| && 0 <= j < |items| && rest[p] == items[i] && rest[q] == items[j]
      ensures vals[j] != was[j] ==> vals[i] != was[i] && j < i
      ensures vals[i] == was[i] ==> vals[j] == was[j] && i < j
    {
      assert items[src[p]] == items[i] && items[src[q]] == items[j];
      assert src[p] == i && src[q] == j;
    }
  }

  /** Jobs whose records have changed come first, in reversed order; all others follow in order. */
  ghost predicate InPassOrder(items: seq<Item<Job>>, was: seq<Job>, rest: seq<Item<Job>>, vals: seq<Job>) {
    && |was| == |items| == |vals|
    && forall p, q, i, j ::
         (0 <= p < q < |rest| && 0 <= i < |items| && 0 <= j < |items| && rest[p] == items[i] && rest[q] == items[j]) ==>
           && (vals[j] != was[j] ==> vals[i] != was[i] && j < i)
           && (vals[i] == was[i] ==> vals[j] == was[j] && i < j)
  }

  /** What the pass does to each record is a mark, if anything. */
  lemma {:induction false} PassedAt(js: seq<Job>, now: int, p: nat) returns (i: nat)
    requires p < |js|
    ensures |PassedJobs(js, now)| == |js| && i < |js|
    ensures PassedJobs(js, now)[p] == MarkedJob(js[i], Prioritised(js[i], now))
  {
    var flags := Flags(js, now);
    var ms := Marked(js, flags);
    TreatedEnds(ms, flags);
    i := TreatedAt(ms, flags, |js|, p);
  }

  /** Nothing is lost and nothing is doubled by the pass. */
  lemma {:induction false} PassPermutes<X>(xs: seq<X>, flags: seq<bool>)
    requires |flags| == |xs|
    ensures multiset(FlaggedReversed(xs, flags) + Unflagged(xs, flags)) == multiset(xs)
  {
    if xs != [] {
      var l := |xs| - 1;
      PassPermutes(xs[..l], flags[..l]);
      assert xs == xs[..l] + [xs[l]];
    }
  }

  // ----- moving one job to its place

  /** Jobs are ordered by start time, and by number when they start together. */
  predicate Before(a: Job, b: Job) {
    a.startTime < b.startTime || (a.startTime == b.startTime && a.jobId < b.jobId)
  }

  ghost predicate SortedJobs(js: seq<Job>) {
    forall i, j :: 0 <= i < j < |js| ==>
      js[i].startTime < js[j].startTime || (js[i].startTime == js[j].startTime && js[i].jobId <= js[j].jobId)
  }

  /** Between two neighbours that it does not precede or follow, a job is in its place. */
  lemma {:induction false} PlaceFound(rest: seq<Job>, pos: nat, job: Job)
    requires SortedJobs(rest) && pos <= |rest|
    requires pos > 0 ==> !Before(job, rest[pos - 1])
    requires pos < |rest| ==> !Before(rest[pos], job)
    ensures SortedJobs(Insert(rest, pos, job))
  {
    var r := Insert(rest, pos, job);
    forall i, j | 0 <= i < j < |r|
      ensures !Before(r[j], r[i])
    {
      assert r[i] == if i < pos then rest[i] else if i == pos then job else rest[i - 1];
      assert r[j] == if j < pos then rest[j] else if j == pos then job else rest[j - 1];
      if j == pos {
        assert i == pos - 1 || !Before(rest[pos - 1], rest[i]);
      } else if i == pos {
        assert j == pos + 1 || !Before(rest[j - 1], rest[pos]);
      }
    }
  }

  /** Walks back over the jobs that the job precedes; returns the one it has to follow. */
  method NewPredecessor(list: PlanList<Job>, job: Item<Job>, ghost k: nat) returns (pred: Item?<Job>, ghost pos: nat)
    requires list.Valid() && k < |list.items| && list.items[k] == job
    ensures pos <= k && pred == (if pos > 0 then list.items[pos - 1] else null)
    ensures pos > 0 ==> !Before(job.value, list.items[pos - 1].value)
    ensures forall i :: pos <= i < k ==> Before(job.value, list.items[i].value)
  {
    pred := job.predecessor;
    pos := k;
    while pred != null && Before(job.value, pred.value)
      invariant pos <= k && pred == (if pos > 0 then list.items[pos - 1] else null)
      invariant forall i :: pos <= i < k ==> Before(job.value, list.items[i].value)
      decreases pos
    {
      pred := pred.predecessor;
      pos := pos - 1;
    }
  }

  /** Walks on over the jobs that precede the job; returns the one that has to follow it. */
  method NewSuccessor(list: PlanList<Job>, job: Item<Job>, ghost k: nat) returns (succ: Item?<Job>, ghost pos: nat)
    requires list.Valid() && k < |list.items| && list.items[k] == job
    ensures k < pos <= |list.items| && succ == ItemAt(list.items, pos)
    ensures pos < |list.items| ==> !Before(list.items[pos].value, job.value)
    ensures forall i :: k < i < pos ==> Before(list.items[i].value, job.value)
  {
    succ := job.successor;
    pos := k + 1;
    while succ != null && Before(succ.value, job.value)
      invariant k < pos <= |list.items| && succ == ItemAt(list.items, pos)
      invariant forall i :: k < i < pos ==> Before(list.items[i].value, job.value)
      decreases |list.items| - pos
    {
      succ := succ.successor;
      pos := pos + 1;
    }
  }

  /** Where the job goes in the list without it. */
  lemma {:induction false} PlaceInRest(js: seq<Job>, k: nat, a: nat, b: nat)
    requires k < |js| && SortedJobs(Delete(js, k)) && a <= k < b <= |js|
    requires a > 0 ==> !Before(js[k], js[a - 1])
    requires b < |js| ==> !Before(js[b], js[k])
    requires forall i :: a <= i < k ==> Before(js[k], js[i])
    requires forall i :: k < i < b ==> Before(js[i], js[k])
    ensures a == k || b == k + 1
    ensures SortedJobs(Insert(Delete(js, k), if b > k + 1 then b - 1 else a, js[k]))
  {
    var rest := Delete(js, k);
    assert forall i :: 0 <= i < |rest| ==> rest[i] == if i < k then js[i] else js[i + 1];
    assert 0 < k < |rest| ==> !Before(rest[k], rest[k - 1]);
    PlaceFound(rest, if b > k + 1 then b - 1 else a, js[k]);
  }

  /** Finds the place of a job in the list without it, and the item it has to follow there. */
  method FindPlace(list: PlanList<Job>, job: Item<Job>, ghost k: nat) returns (newPred: Item?<Job>, ghost pos: nat)
    requires list.Valid() && k < |list.items| && list.items[k] == job
    requires SortedJobs(Delete(list.Values(), k))
    ensures pos < |list.items|
    ensures newPred == if pos > 0 then Delete(list.items, k)[pos - 1] else null
    ensures SortedJobs(Insert(Delete(list.Values(), k), pos, job.value))
  {
    hide SortedJobs;
    ghost var a, b;
    newPred, a := NewPredecessor(list, job, k);
    var newSucc;
    newSucc, b := NewSuccessor(list, job, k);
    PlaceInRest(list.Values(), k, a, b);
    pos := if b > k + 1 then b - 1 else a;
    if newSucc != job.successor {
      if newSucc == null {
        newPred := list.last;
      } else {
        newPred := newSucc.predecessor;
      }
    }
  }

  /** A list that is sorted apart from one job is sorted after that job is moved to its place. */
  method AdjustJobPosition(list: PlanList<Job>, job: Item<Job>)
    requires list.Valid() && job in list.items
    requires SortedJobs(Delete(list.Values(), IndexOf(list.items, job)))
    modifies list, list.items`successor, list.items`predecessor
    ensures list.Valid() && SortedJobs(list.Values())
    ensures multiset(list.items) == multiset(old(list.items))
  {
    hide SortedJobs, Delete, Insert, PlanList.Valid;
    ghost var k := IndexOf(list.items, job);
    var newPred, pos := FindPlace(list, job, k);
    if newPred != job.predecessor {
      MoveTo(list, job, newPred, k, pos);
    } else {
      InPlace(list, job, newPred, k, pos);
    }
  }

  /** A job that already follows the item that it has to follow is in its place. */
  lemma {:induction false} InPlace(list: PlanList<Job>, job: Item<Job>, pred: Item?<Job>, k: nat, pos: nat)
    requires list.Valid() && k < |list.items| && list.items[k] == job && pos < |list.items|
    requires pred == (if pos > 0 then Delete(list.items, k)[pos - 1] else null) && pred == job.predecessor
    ensures list.Values() == Insert(Delete(list.Values(), k), pos, job.value)
  {
    SamePlace(list, job, pred, k, pos);
    PutBack(list.Values(), k);
  }

  lemma {:induction false} PutBack<X>(xs: seq<X>, k: nat)
    requires k < |xs|
    ensures |Delete(xs, k)| == |xs| - 1 && Insert(Delete(xs, k), k, xs[k]) == xs
  {
    var rest := Delete(xs, k);
    assert rest[..k] == xs[..k] && rest[k..] == xs[k + 1..];
  }

  lemma {:induction false} SamePlace(list: PlanList<Job>, job: Item<Job>, pred: Item?<Job>, k: nat, pos: nat)
    requires list.Valid() && k < |list.items| && list.items[k] == job && pos < |list.items|
    requires pred == (if pos > 0 then Delete(list.items, k)[pos - 1] else null) && pred == job.predecessor
    ensures pos == k
  {
    assert pos > 0 ==> Delete(list.items, k)[pos - 1] == list.items[if pos - 1 < k then pos - 1 else pos];
  }

  lemma {:induction false} InsertAdds<X>(xs: seq<X>, pos: nat, x: X)
    requires pos <= |xs|
    ensures multiset(Insert(xs, pos, x)) == multiset(xs) + multiset{x}
  {
    assert xs == xs[..pos] + xs[pos..];
  }

  lemma {:induction false} MovePermutes<X>(xs: seq<X>, k: nat, pos: nat)
    requires k < |xs| && pos < |xs|
    ensures multiset(Insert(Delete(xs, k), pos, xs[k])) == multiset(xs)
  {
    var rest := Delete(xs, k);
    InsertAdds(rest, pos, xs[k]);
    InsertAdds(rest, k, xs[k]);
    assert rest[..k] == xs[..k] && rest[k..] == xs[k + 1..];
    assert xs == Insert(rest, k, xs[k]);
  }

  /** Where the elements of a list with one element moved come from. */
  function Source(k: nat, pos: nat, i: nat): nat {
    if i == pos then k
    else
      var q := if i < pos then i else i - 1;
      if q < k then q else q + 1
  }

  lemma {:induction false} MovedAt<X>(xs: seq<X>, k: nat, pos: nat, x: X)
    requires k < |xs| && pos < |xs|
    ensures |Delete(xs, k)| == |xs| - 1
    ensures var r := Insert(Delete(xs, k), pos, x);
            && |r| == |xs|
            && forall i :: 0 <= i < |xs| ==> Source(k, pos, i) < |xs| && r[i] == if i == pos then x else xs[Source(k, pos, i)]
  {
    var rest := Delete(xs, k);
    assert forall q :: 0 <= q < |rest| ==> rest[q] == xs[if q < k then q else q + 1];
  }

  lemma {:induction false} IndexInRest(xs: seq<Item<Job>>, k: nat, q: nat)
    requires forall i, j :: 0 <= i < j < |xs| ==> xs[i] != xs[j]
    requires k < |xs| && q < |xs| - 1
    ensures var rest := Delete(xs, k); rest[q] in xs && rest[q] != xs[k] && rest[q] in rest && IndexOf(rest, rest[q]) == q
  {
    var rest := Delete(xs, k);
    assert forall i :: 0 <= i < |rest| ==> rest[i] == if i < k then xs[i] else xs[i + 1];
    assert rest[q] in rest;
  }

  /** Moves a job behind another one, by position. */
  method MoveItemTo(list: PlanList<Job>, job: Item<Job>, pred: Item?<Job>, ghost k: nat, ghost pos: nat)
    requires list.Valid() && k < |list.items| && list.items[k] == job && pos < |list.items|
    requires pred == if pos > 0 then Delete(list.items, k)[pos - 1] else null
    modifies list, list.items`successor, list.items`predecessor
    ensures list.Valid()
    ensures list.items == Insert(Delete(old(list.items), k), pos, job)
  {
    ghost var items, rest := list.items, Delete(list.items, k);
    assert IndexOf(items, job) == k;
    if pos > 0 {
      IndexInRest(items, k, pos - 1);
    }
    hide PlanList.Valid, IndexOf;
    list.MoveItem(job, pred);
    assert list.items == Insert(rest, pos, job);
  }

  method MoveTo(list: PlanList<Job>, job: Item<Job>, pred: Item?<Job>, ghost k: nat, ghost pos: nat)
    requires list.Valid() && k < |list.items| && list.items[k] == job && pos < |list.items|
    requires pred == if pos > 0 then Delete(list.items, k)[pos - 1] else null
    modifies list, list.items`successor, list.items`predecessor
    ensures list.Valid()
    ensures |Delete(old(list.Values()), k)| == |old(list.Values())| - 1
    ensures list.Values() == Insert(Delete(old(list.Values()), k), pos, job.value)
    ensures multiset(list.items) == multiset(old(list.items))
  {
    hide PlanList.Valid, Delete, Insert, Source;
    ghost var items, js := list.items, list.Values();
    MovedAt(items, k, pos, job);
    MovedAt(js, k, pos, job.value);
    MovePermutes(items, k, pos);
    MoveItemTo(list, job, pred, k, pos);
  }
}
