/** Sorting jobs by several keys (sort.cpp), and by fair share (fairshare.cpp). */
module Comparators {
  import opened PlanJobs
  import opened JobInfos

  datatype SortKey = NoSort | ShortestJobFirst | LongestJobFirst | SmallestMemFirst | LargestMemFirst
    | HighPriorityFirst | LowPriorityFirst | LargeWalltimeFirst | ShortWalltimeFirst | FairShare

  const NUM_SORTS := 11

  /** Jobs without the resource come last. */
  predicate CmpGenericAsc(req1: Option<int>, req2: Option<int>) {
    if req1 == None && req2 != None then false
    else if req1 != None && req2 == None then true
    else if req1 != None && req2 != None then req1.value < req2.value
    else false
  }

  /** Jobs without the resource come first. */
  predicate CmpGenericDesc(req1: Option<int>, req2: Option<int>) {
    if req1 == None && req2 != None then true
    else if req1 != None && req2 == None then false
    else if req1 != None && req2 != None then req1.value > req2.value
    else false
  }

  /** The comparison that belongs to a key. */
  predicate Compare(key: SortKey, j1: JobInfo, j2: JobInfo) {
    match key
    case NoSort => false
    case ShortestJobFirst => CmpGenericAsc(j1.cput, j2.cput)
    case LongestJobFirst => CmpGenericDesc(j1.cput, j2.cput)
    case SmallestMemFirst => CmpGenericAsc(j1.mem, j2.mem)
    case LargestMemFirst => CmpGenericDesc(j1.mem, j2.mem)
    case HighPriorityFirst => j1.priority > j2.priority
    case LowPriorityFirst => j1.priority < j2.priority
    case LargeWalltimeFirst => CmpGenericDesc(j1.walltime, j2.walltime)
    case ShortWalltimeFirst => CmpGenericAsc(j1.walltime, j2.walltime)
    case FairShare => j1.ginfo.percentage > j2.ginfo.percentage
  }

  /** A key in the fields of the jobs: of two jobs with the resource the smaller amount comes first, and one without it last; or all the other way round. */
  lemma {:induction false} KeysInFields(a: JobInfo, b: JobInfo)
    ensures Compare(ShortestJobFirst, a, b) <==> a.cput.Some? && (b.cput.Some? ==> a.cput.value < b.cput.value)
    ensures Compare(SmallestMemFirst, a, b) <==> a.mem.Some? && (b.mem.Some? ==> a.mem.value < b.mem.value)
    ensures Compare(ShortWalltimeFirst, a, b) <==> a.walltime.Some? && (b.walltime.Some? ==> a.walltime.value < b.walltime.value)
    ensures Compare(LongestJobFirst, a, b) <==> Compare(ShortestJobFirst, b, a)
    ensures Compare(LargestMemFirst, a, b) <==> Compare(SmallestMemFirst, b, a)
    ensures Compare(LargeWalltimeFirst, a, b) <==> Compare(ShortWalltimeFirst, b, a)
    ensures Compare(HighPriorityFirst, a, b) <==> Compare(LowPriorityFirst, b, a)
    ensures Compare(HighPriorityFirst, a, b) <==> a.priority > b.priority
    ensures Compare(FairShare, a, b) <==> a.ginfo.percentage > b.ginfo.percentage
    ensures !Compare(NoSort, a, b)
  {
  }

  // ----- comparing by several orders

  /** Lexicographic comparison: the first order in which the elements differ decides. */
  ghost predicate Lexicographic<T>(orders: seq<(T, T) -> bool>, x: T, y: T) {
    orders != [] &&
    if orders[0](x, y) || orders[0](y, x) then orders[0](x, y)
    else Lexicographic(orders[1..], x, y)
  }

  ghost predicate AllOrders<T(!new)>(orders: seq<(T, T) -> bool>) {
    forall i :: 0 <= i < |orders| ==> StrictWeakOrder(orders[i])
  }

  ghost predicate TiedInAll<T(!new)>(orders: seq<(T, T) -> bool>, x: T, y: T) {
    forall i :: 0 <= i < |orders| ==> Tied(orders[i], x, y)
  }

  /** Elements are tied exactly when they are tied in every order, whatever these comparisons are. */
  lemma {:induction false} TiedIffInAll<T(!new)>(orders: seq<(T, T) -> bool>, x: T, y: T)
    ensures !Lexicographic(orders, x, y) && !Lexicographic(orders, y, x) <==> TiedInAll(orders, x, y)
  {
    if orders != [] {
      TiedIffInAll(orders[1..], x, y);
      assert forall i :: 0 <= i < |orders| - 1 ==> orders[1..][i] == orders[i + 1];
      if TiedInAll(orders[1..], x, y) && Tied(orders[0], x, y) {
        forall i | 0 <= i < |orders|
          ensures Tied(orders[i], x, y)
        {
          assert i > 0 ==> orders[i] == orders[1..][i - 1];
        }
      }
    }
  }

  lemma {:induction false} LexicographicLaws<T(!new)>(orders: seq<(T, T) -> bool>, x: T, y: T, z: T)
    requires AllOrders(orders)
    ensures !Lexicographic(orders, x, x)
    ensures Lexicographic(orders, x, y) && Lexicographic(orders, y, z) ==> Lexicographic(orders, x, z)
  {
    if orders != [] {
      assert AllOrders(orders[1..]);
      LexicographicLaws(orders[1..], x, y, z);
      var o := orders[0];
      assert StrictWeakOrder(o);
      assert Tied(o, x, y) && Tied(o, y, z) ==> Tied(o, x, z);
      FirstOrder(o, x, y, z);
    }
  }

  /** How one order treats three elements. */
  lemma {:induction false} FirstOrder<T(!new)>(less: (T, T) -> bool, x: T, y: T, z: T)
    requires StrictWeakOrder(less)
    ensures less(x, y) ==> !less(y, x)
    ensures less(x, y) && Tied(less, y, z) ==> less(x, z)
    ensures Tied(less, x, y) && less(y, z) ==> less(x, z)
  {
    assert Tied(less, z, y) <==> Tied(less, y, z);
    assert Tied(less, y, x) <==> Tied(less, x, y);
    assert less(z, x) && less(x, y) ==> less(z, y);
    assert less(y, z) && less(z, x) ==> less(y, x);
    assert Tied(less, x, z) && Tied(less, z, y) ==> Tied(less, x, y);
    assert Tied(less, y, x) && Tied(less, x, z) ==> Tied(less, y, z);
  }

  /** Strict weak orders, one after the other, make a strict weak order. */
  lemma {:induction false} LexicographicIsOrder<T(!new)>(orders: seq<(T, T) -> bool>)
    requires AllOrders(orders)
    ensures StrictWeakOrder((x: T, y: T) => Lexicographic(orders, x, y))
  {
    var less := (x: T, y: T) => Lexicographic(orders, x, y);
    forall x: T, y: T, z: T
      ensures !less(x, x)
      ensures less(x, y) && less(y, z) ==> less(x, z)
      ensures Tied(less, x, y) && Tied(less, y, z) ==> Tied(less, x, z)
    {
      LexicographicLaws(orders, x, y, z);
      TiedIffInAll(orders, x, y);
      TiedIffInAll(orders, y, z);
      TiedIffInAll(orders, x, z);
      TiedInAllTrans(orders, x, y, z);
    }
  }

  lemma {:induction false} TiedInAllTrans<T(!new)>(orders: seq<(T, T) -> bool>, x: T, y: T, z: T)
    requires AllOrders(orders)
    ensures TiedInAll(orders, x, y) && TiedInAll(orders, y, z) ==> TiedInAll(orders, x, z)
  {
    if TiedInAll(orders, x, y) && TiedInAll(orders, y, z) {
      forall i | 0 <= i < |orders|
        ensures Tied(orders[i], x, z)
      {
        assert StrictWeakOrder(orders[i]);
        assert Tied(orders[i], x, y) && Tied(orders[i], y, z);
      }
    }
  }

  // ----- the keys of a queue

  /** The order that belongs to a key. */
  function OrderOf(key: SortKey): (JobInfo, JobInfo) -> bool {
    (j1, j2) => Compare(key, j1, j2)
  }

  function OrdersOf(keys: seq<SortKey>): (orders: seq<(JobInfo, JobInfo) -> bool>)
    ensures |orders| == |keys| && forall i :: 0 <= i < |keys| ==> orders[i] == OrderOf(keys[i])
  {
    seq(|keys|, i requires 0 <= i < |keys| => OrderOf(keys[i]))
  }

  /** The first key in which the jobs differ decides. */
  ghost predicate ByKeys(keys: seq<SortKey>, j1: JobInfo, j2: JobInfo) {
    Lexicographic(OrdersOf(keys), j1, j2)
  }

  lemma {:induction false} ByFirstKey(keys: seq<SortKey>, j1: JobInfo, j2: JobInfo)
    requires keys != []
    ensures ByKeys(keys, j1, j2) ==
            if Compare(keys[0], j1, j2) || Compare(keys[0], j2, j1) then Compare(keys[0], j1, j2) else ByKeys(keys[1..], j1, j2)
  {
    assert OrdersOf(keys)[1..] == OrdersOf(keys[1..]);
    assert OrdersOf(keys)[0] == OrderOf(keys[0]);
  }

  /** The keys in use: those behind the first entry, up to an entry without sorting. */
  ghost function ActiveKeys(sortBy: seq<SortKey>, i: nat): seq<SortKey>
    requires i <= |sortBy|
    decreases |sortBy| - i
  {
    if i == |sortBy| || sortBy[i] == NoSort then [] else [sortBy[i]] + ActiveKeys(sortBy, i + 1)
  }

  /** Compares by the keys in use. */
  method MultiSort(sortBy: array<SortKey>, j1: JobInfo, j2: JobInfo) returns (less: bool)
    requires sortBy.Length == NUM_SORTS + 1
    ensures less == ByKeys(ActiveKeys(sortBy[..], 1), j1, j2)
  {
    var i := 1;
    while i <= NUM_SORTS && sortBy[i] != NoSort && !Compare(sortBy[i], j1, j2) && !Compare(sortBy[i], j2, j1)
      invariant 1 <= i <= NUM_SORTS + 1
      invariant ByKeys(ActiveKeys(sortBy[..], 1), j1, j2) == ByKeys(ActiveKeys(sortBy[..], i), j1, j2)
    {
      assert ActiveKeys(sortBy[..], i) == [sortBy[i]] + ActiveKeys(sortBy[..], i + 1);
      assert ActiveKeys(sortBy[..], i)[1..] == ActiveKeys(sortBy[..], i + 1);
      ByFirstKey(ActiveKeys(sortBy[..], i), j1, j2);
      i := i + 1;
    }
    if i <= NUM_SORTS && sortBy[i] != NoSort {
      ByFirstKey(ActiveKeys(sortBy[..], i), j1, j2);
      less := Compare(sortBy[i], j1, j2);
    } else {
      less := false;
    }
  }

  lemma {:induction false} CompareIsOrder(key: SortKey)
    ensures StrictWeakOrder(OrderOf(key))
  {
  }

  lemma {:induction false} MultiSortIsOrder(sortBy: seq<SortKey>)
    requires |sortBy| == NUM_SORTS + 1
    ensures StrictWeakOrder((j1, j2) => Lexicographic(OrdersOf(ActiveKeys(sortBy, 1)), j1, j2))
  {
    var keys := ActiveKeys(sortBy, 1);
    forall i | 0 <= i < |keys|
      ensures StrictWeakOrder(OrdersOf(keys)[i])
    {
      CompareIsOrder(keys[i]);
    }
    LexicographicIsOrder(OrdersOf(keys));
  }

  /** Jobs are tied exactly when they are tied on every key in use. */
  lemma {:induction false} TiedOnEveryKey(keys: seq<SortKey>, j1: JobInfo, j2: JobInfo)
    ensures !ByKeys(keys, j1, j2) && !ByKeys(keys, j2, j1) <==>
            forall k :: 0 <= k < |keys| ==> !Compare(keys[k], j1, j2) && !Compare(keys[k], j2, j1)
  {
    TiedIffInAll(OrdersOf(keys), j1, j2);
    forall k | 0 <= k < |keys|
      ensures Tied(OrdersOf(keys)[k], j1, j2) <==> !Compare(keys[k], j1, j2) && !Compare(keys[k], j2, j1)
    {
      assert OrdersOf(keys)[k] == OrderOf(keys[k]);
    }
    assert TiedInAll(OrdersOf(keys), j1, j2) <==> forall k :: 0 <= k < |keys| ==> Tied(OrdersOf(keys)[k], j1, j2);
  }
}
