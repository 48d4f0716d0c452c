/**
 Grouping nodes into clusters, one node at a time (plan_schedule.cpp). The
 clusters are those of a group-by on the cluster name and the properties that
 are not walltime bounds.
 */
module Clusters {
  import opened PlanJobs

  // ----- properties that count

  /** One of the strings begins with the other. */
  predicate Comparable(s1: string, s2: string) {
    s1 <= s2 || s2 <= s1
  }

  /** Despite its name, this also accepts a first string that is shorter than the second. */
  method IsPrefix(s1: string, s2: string) returns (r: bool)
    ensures r == Comparable(s1, s2)
    ensures r <==> s1 <= s2 || s2 <= s1
  {
    var p := 0;
    while p < |s1| && p < |s2|
      invariant 0 <= p <= |s1| && p <= |s2|
      invariant s1[..p] == s2[..p]
    {
      if s1[p] != s2[p] {
        return false;
      }
      p := p + 1;
    }
    assert s1[..|s1|] == s1 && s2[..|s2|] == s2;
    r := true;
  }

  predicate WalltimeBound(property: string) {
    Comparable(property, "min_") || Comparable(property, "max_")
  }

  ghost function Bounds(strings: set<string>, selectExclude: bool): set<string> {
    set s | s in strings && WalltimeBound(s) == selectExclude
  }

  lemma {:induction false} BoundsNext(strings: set<string>, s: string, selectExclude: bool)
    ensures Bounds(strings + {s}, selectExclude) ==
            if WalltimeBound(s) == selectExclude then Bounds(strings, selectExclude) + {s} else Bounds(strings, selectExclude)
  {
  }

  method FilterExclude(strings: set<string>, selectExclude: bool) returns (output: set<string>)
    ensures output == set s | s in strings && WalltimeBound(s) == selectExclude
  {
    output := {};
    var left := strings;
    while left != {}
      invariant left <= strings
      invariant output == Bounds(strings - left, selectExclude)
      decreases |left|
    {
      var s :| s in left;
      assert strings - (left - {s}) == strings - left + {s};
      BoundsNext(strings - left, s, selectExclude);
      var isMin := IsPrefix(s, "min_");
      var isMax := IsPrefix(s, "max_");
      if selectExclude {
        if isMin || isMax {
          output := output + {s};
        }
      } else if !isMin && !isMax {
        output := output + {s};
      }
      left := left - {s};
    }
  }

  // ----- nodes, clusters and what identifies them

  datatype Node = Node(name: string, clusterName: Option<string>, physProps: set<string>, cores: int,
                       coresFree: int, outOfService: bool)

  datatype Cluster = Cluster(clusterName: string, properties: set<string>, nodes: seq<Node>, nodesName: seq<string>,
                             numNodes: int, numCpus: int, numRunningCpus: int)

  datatype Key = Key(clusterName: string, properties: set<string>)

  datatype Ident = Ident(name: string, key: Key, cores: int)

  function NameOfCluster(n: Node): string {
    if n.clusterName == None then "" else n.clusterName.value
  }

  ghost function KeyOf(n: Node): Key {
    Key(NameOfCluster(n), set s | s in n.physProps && !WalltimeBound(s))
  }

  ghost function ClusterKey(c: Cluster): Key {
    Key(c.clusterName, c.properties)
  }

  /** What must not change about a node: its name, its group and its cores. */
  ghost function IdentOf(n: Node): Ident {
    Ident(n.name, KeyOf(n), n.cores)
  }

  ghost function Idents(nodes: seq<Node>): set<Ident> {
    set i | 0 <= i < |nodes| :: IdentOf(nodes[i])
  }

  /** Nodes of the same name are the same node. */
  ghost predicate Fixed(ids: set<Ident>) {
    forall a, b :: a in ids && b in ids && a.name == b.name ==> a == b
  }

  /** The members of a group. */
  ghost function Group(ids: set<Ident>, key: Key): set<Ident> {
    set x | x in ids && x.key == key
  }

  function Cores(nodes: seq<Node>): int {
    if nodes == [] then 0 else Cores(nodes[..|nodes| - 1]) + nodes[|nodes| - 1].cores
  }

  // ----- what the clusters are

  ghost predicate OneName(nodes: seq<Node>) {
    forall i, j :: 0 <= i < j < |nodes| ==> nodes[i].name != nodes[j].name
  }

  ghost predicate Consistent(c: Cluster) {
    && |c.nodes| == |c.nodesName| == c.numNodes && OneName(c.nodes)
    && (forall i :: 0 <= i < |c.nodes| ==> c.nodes[i].name == c.nodesName[i])
    && c.numCpus == Cores(c.nodes)
  }

  /** The clusters are the groups: one for every key that occurs, each with all nodes of that key. */
  ghost predicate GroupedBy(clusters: seq<Cluster>, ids: set<Ident>) {
    && (forall a, b :: 0 <= a < b < |clusters| ==> ClusterKey(clusters[a]) != ClusterKey(clusters[b]))
    && (forall a :: 0 <= a < |clusters| ==> Consistent(clusters[a]))
    && (forall a :: 0 <= a < |clusters| ==>
          Idents(clusters[a].nodes) == Group(ids, ClusterKey(clusters[a])) && clusters[a].nodes != [])
    && (forall x :: x in ids ==> exists a :: 0 <= a < |clusters| && ClusterKey(clusters[a]) == x.key)
  }

  // ----- the partition depends on the nodes only

  lemma {:induction false} SameIdentsSameCores(xs: seq<Node>, ys: seq<Node>)
    requires OneName(xs) && OneName(ys) && Idents(xs) == Idents(ys)
    ensures Cores(xs) == Cores(ys)
  {
    IdentsCount(xs);
    IdentsCount(ys);
    if xs != [] {
      var l := |xs| - 1;
      assert IdentOf(xs[l]) in Idents(ys);
      var k :| 0 <= k < |ys| && IdentOf(ys[k]) == IdentOf(xs[l]);
      var zs := ys[..k] + ys[k + 1..];
      CoresWithout(ys, k);
      IdentsWithout(xs, l);
      IdentsWithout(ys, k);
      assert xs[..l] + xs[l + 1..] == xs[..l];
      assert OneName(zs);
      SameIdentsSameCores(xs[..l], zs);
    }
  }

  lemma {:induction false} CoresWithout(ys: seq<Node>, k: nat)
    requires k < |ys|
    ensures Cores(ys) == Cores(ys[..k] + ys[k + 1..]) + ys[k].cores
  {
    var l := |ys| - 1;
    var zs := ys[..k] + ys[k + 1..];
    if k < l {
      CoresWithout(ys[..l], k);
      assert zs[..|zs| - 1] == ys[..l][..k] + ys[..l][k + 1..];
    } else {
      assert zs == ys[..l];
    }
  }

  lemma {:induction false} IdentsWithout(ys: seq<Node>, k: nat)
    requires k < |ys| && OneName(ys)
    ensures Idents(ys[..k] + ys[k + 1..]) == Idents(ys) - {IdentOf(ys[k])}
  {
    var zs := ys[..k] + ys[k + 1..];
    forall x
      ensures x in Idents(zs) <==> x in Idents(ys) - {IdentOf(ys[k])}
    {
      if x in Idents(zs) {
        var i :| 0 <= i < |zs| && IdentOf(zs[i]) == x;
        assert zs[i] == ys[if i < k then i else i + 1];
      }
      if x in Idents(ys) && x != IdentOf(ys[k]) {
        var i :| 0 <= i < |ys| && IdentOf(ys[i]) == x;
        assert zs[if i < k then i else i - 1] == ys[i];
      }
    }
  }

  /** Whatever the order of arrival, and however often a node came: the same nodes make the same clusters. */
  lemma {:induction false} PartitionIsDetermined(cs: seq<Cluster>, ds: seq<Cluster>, ids: set<Ident>, a: nat) returns (b: nat)
    requires GroupedBy(cs, ids) && GroupedBy(ds, ids) && a < |cs|
    ensures b < |ds| && ClusterKey(cs[a]) == ClusterKey(ds[b])
    ensures Idents(cs[a].nodes) == Idents(ds[b].nodes) && cs[a].numNodes == ds[b].numNodes && cs[a].numCpus == ds[b].numCpus
  {
    var x := IdentOf(cs[a].nodes[0]);
    assert x in Idents(cs[a].nodes);
    b :| 0 <= b < |ds| && ClusterKey(ds[b]) == x.key;
    assert Idents(ds[b].nodes) == Group(ids, x.key) == Idents(cs[a].nodes);
    SameIdentsSameCores(cs[a].nodes, ds[b].nodes);
    IdentsCount(cs[a].nodes);
    IdentsCount(ds[b].nodes);
  }

  lemma {:induction false} IdentsCount(nodes: seq<Node>)
    requires OneName(nodes)
    ensures |Idents(nodes)| == |nodes|
  {
    if nodes == [] {
      assert Idents(nodes) == {};
    } else {
      var l := |nodes| - 1;
      IdentsWithout(nodes, l);
      assert nodes[..l] + nodes[l + 1..] == nodes[..l];
      assert IdentOf(nodes[l]) in Idents(nodes);
      IdentsCount(nodes[..l]);
    }
  }

  /** Properties that are, or begin, or begin with, one of the markers of walltime bounds. */
  ghost predicate Marker(s: string) {
    s <= "min_" || "min_" <= s || s <= "max_" || "max_" <= s
  }

  /**
   In the fields of two nodes: they share a cluster if and only if both belong to the
   cluster of the same name, or to none, and have the same properties apart from
   walltime bounds.
   */
  lemma {:induction false} TogetherIff(cs: seq<Cluster>, ids: set<Ident>, n: Node, m: Node, a: nat, b: nat)
    requires GroupedBy(cs, ids) && Fixed(ids) && IdentOf(n) in ids && IdentOf(m) in ids
    requires a < |cs| && b < |cs| && n.name in cs[a].nodesName && m.name in cs[b].nodesName
    ensures a == b <==>
            && (if n.clusterName.Some? && m.clusterName.Some? then n.clusterName == m.clusterName
                else n.clusterName in {None, Some("")} && m.clusterName in {None, Some("")})
            && forall s :: s in n.physProps + m.physProps && !Marker(s) ==> s in n.physProps && s in m.physProps
  {
    var i := InExactlyOneCluster(cs, ids, IdentOf(n));
    var j := InExactlyOneCluster(cs, ids, IdentOf(m));
    assert a == i && b == j;
    assert a == b <==> KeyOf(n) == KeyOf(m);
    SameKeyIff(n, m);
  }

  lemma {:induction false} SameKeyIff(n: Node, m: Node)
    ensures KeyOf(n) == KeyOf(m) <==>
            && (if n.clusterName.Some? && m.clusterName.Some? then n.clusterName == m.clusterName
                else n.clusterName in {None, Some("")} && m.clusterName in {None, Some("")})
            && forall s :: s in n.physProps + m.physProps && !Marker(s) ==> s in n.physProps && s in m.physProps
  {
    var p, q := KeyOf(n).properties, KeyOf(m).properties;
    if p == q {
      forall s | s in n.physProps + m.physProps && !Marker(s)
        ensures s in n.physProps && s in m.physProps
      {
        assert s in p || s in q;
      }
    }
    if forall s :: s in n.physProps + m.physProps && !Marker(s) ==> s in n.physProps && s in m.physProps {
      forall s
        ensures s in p <==> s in q
      {
        assert s in p || s in q ==> s in n.physProps + m.physProps;
      }
    }
  }

  /** Every node is in exactly one cluster, the one of its key. */
  lemma {:induction false} InExactlyOneCluster(cs: seq<Cluster>, ids: set<Ident>, x: Ident) returns (a: nat)
    requires GroupedBy(cs, ids) && Fixed(ids) && x in ids
    ensures a < |cs| && ClusterKey(cs[a]) == x.key && x.name in cs[a].nodesName
    ensures forall b :: 0 <= b < |cs| && x.name in cs[b].nodesName ==> b == a
  {
    a :| 0 <= a < |cs| && ClusterKey(cs[a]) == x.key;
    assert x in Idents(cs[a].nodes);
    var i :| 0 <= i < |cs[a].nodes| && IdentOf(cs[a].nodes[i]) == x;
    assert cs[a].nodesName[i] == x.name;
    forall b | 0 <= b < |cs| && x.name in cs[b].nodesName
      ensures b == a
    {
      var j :| 0 <= j < |cs[b].nodesName| && cs[b].nodesName[j] == x.name;
      assert IdentOf(cs[b].nodes[j]) in Idents(cs[b].nodes);
    }
  }

  // ----- one more node

  /** The clusters keep their keys, their nodes' names and their CPUs; only the node records may be newer. */
  ghost predicate SameShape(cs: seq<Cluster>, ds: seq<Cluster>) {
    |cs| == |ds| && forall a :: 0 <= a < |cs| ==> ds[a] == cs[a].(nodes := ds[a].nodes) && Idents(ds[a].nodes) == Idents(cs[a].nodes)
  }

  ghost predicate Known(ids: set<Ident>, name: string) {
    exists x :: x in ids && x.name == name
  }

  /** The schedule's clusters, and the nodes that it has seen so far. */
  class Sched {
    var clusters: seq<Cluster>
    ghost var seen: set<Ident>

    ghost predicate Grouped()
      reads this
    {
      GroupedBy(clusters, seen) && Fixed(seen)
    }

    constructor ()
      ensures Grouped() && clusters == [] && seen == {}
    {
      clusters, seen := [], {};
    }

    method ScheduleAddCluster(clusterName: string, properties: set<string>)
      modifies `clusters
      ensures clusters == old(clusters) + [Cluster(clusterName, set s | s in properties && !WalltimeBound(s), [], [], 0, 0, 0)]
    {
      var kept := FilterExclude(properties, false);
      assert kept == set s | s in properties && !WalltimeBound(s);
      clusters := clusters + [Cluster(clusterName, kept, [], [], 0, 0, 0)];
    }

    method ClusterAddNode(a: nat, n: Node)
      requires a < |clusters|
      modifies `clusters
      ensures var c := old(clusters)[a];
              clusters == old(clusters)[a := c.(nodes := c.nodes + [n], nodesName := c.nodesName + [n.name],
                                                numNodes := c.numNodes + 1, numCpus := c.numCpus + n.cores,
                                                numRunningCpus := c.numRunningCpus + if n.outOfService then 0 else n.coresFree)]
    {
      var c := clusters[a];
      c := c.(numNodes := c.numNodes + 1);
      c := c.(nodes := c.nodes + [n], nodesName := c.nodesName + [n.name]);
      c := c.(numCpus := c.numCpus + n.cores);
      if !n.outOfService {
        c := c.(numRunningCpus := c.numRunningCpus + n.coresFree);
      }
      clusters := clusters[a := c];
    }

    /** 0 when the cluster has the properties of the node. */
    method ClusterCheckFit(c: Cluster, n: Node) returns (r: int)
      ensures r == 0 <==> c.properties == KeyOf(n).properties
    {
      var kept := FilterExclude(n.physProps, false);
      r := if c.properties != kept then 1 else 0;
    }

    /** Where the name of a node stands in a cluster; the number of nodes when it is not there. */
    method FindName(c: Cluster, name: string) returns (j: int)
      requires Consistent(c)
      ensures 0 <= j <= c.numNodes
      ensures j < c.numNodes ==> c.nodesName[j] == name
      ensures j == c.numNodes ==> forall i :: 0 <= i < |c.nodes| ==> c.nodes[i].name != name
    {
      j := 0;
      while j < c.numNodes
        invariant 0 <= j <= c.numNodes
        invariant forall i :: 0 <= i < j ==> c.nodes[i].name != name
      {
        if c.nodesName[j] == name {
          return;
        }
        j := j + 1;
      }
    }

    /** Puts a node where it belongs: renews a known one, adds an unknown one to its cluster, or opens a cluster. */
    method PlanFindClusterForNode(node: Node)
      requires Grouped() && Fixed(seen + {IdentOf(node)})
      modifies this
      ensures Grouped() && seen == old(seen) + {IdentOf(node)}
      ensures Known(old(seen), node.name) ==> SameShape(old(clusters), clusters)
      ensures Recorded(clusters, InCluster(node)) && OthersStay(old(clusters), clusters, node.name)
    {
      hide GroupedBy, Fixed, SameShape, Known, Recorded, OthersStay;
      ghost var cs, ids := clusters, seen;
      var n := InCluster(node);
      assert IdentOf(n) == IdentOf(node);
      seen := seen + {IdentOf(node)};
      var i := 0;
      while i < |clusters|
        invariant 0 <= i <= |clusters| && clusters == cs && seen == ids + {IdentOf(n)}
        invariant forall k :: 0 <= k < i ==> ClusterKey(cs[k]) != KeyOf(n)
      {
        if clusters[i].clusterName == n.clusterName.value {
          ClusterIsConsistent(cs, ids, i);
          var j := FindName(clusters[i], n.name);
          if j < clusters[i].numNodes {
            Renewed(cs, ids, n, i, j);
            clusters := clusters[i := clusters[i].(nodes := clusters[i].nodes[j := n])];
            RenewedIsRecorded(cs, n, i, j);
            return;
          }
          var misfit := ClusterCheckFit(clusters[i], n);
          if misfit == 0 {
            Added(cs, ids, n, i);
            ClusterAddNode(i, n);
            AddedIsRecorded(cs, n, i, clusters);
            return;
          }
        }
        i := i + 1;
      }
      Opened(cs, ids, n);
      ScheduleAddCluster(n.clusterName.value, n.physProps);
      ClusterAddNode(|clusters| - 1, n);
      assert clusters == cs + [Opening(n)];
      OpenedIsRecorded(cs, n);
    }

    /** Puts all nodes of a server where they belong. When all of them are known, nothing but their records changes. */
    method PlanUpdateClusters(nodes: seq<Node>)
      requires Grouped() && Fixed(seen + Idents(nodes))
      modifies this
      ensures Grouped() && seen == old(seen) + Idents(nodes)
      ensures Idents(nodes) <= old(seen) ==> SameShape(old(clusters), clusters)
      ensures LatestRecorded(clusters, nodes)
    {
      hide GroupedBy, SameShape, LatestRecorded, Recorded, OthersStay;
      NothingRecorded(clusters);
      ghost var cs := clusters;
      ShapeIsKept(cs, cs, cs);
      for i := 0 to |nodes|
        invariant Grouped() && seen == old(seen) + Idents(nodes[..i])
        invariant Idents(nodes) <= old(seen) ==> SameShape(cs, clusters)
        invariant LatestRecorded(clusters, nodes[..i])
      {
        ghost var before := clusters;
        IdentsOneMore(nodes, i);
        PlanFindClusterForNode(nodes[i]);
        OneMoreRecorded(before, clusters, nodes, i);
        if Idents(nodes) <= old(seen) {
          ShapeIsKept(cs, before, clusters);
        }
      }
      assert nodes[..|nodes|] == nodes;
    }
  }

  /** The record of a node as a cluster keeps it. */
  function InCluster(n: Node): Node {
    n.(clusterName := Some(NameOfCluster(n)))
  }

  ghost predicate Recorded(cs: seq<Cluster>, n: Node) {
    exists a, j :: 0 <= a < |cs| && 0 <= j < |cs[a].nodes| && cs[a].nodes[j] == n
  }

  /** All records of other nodes stay where they are. */
  ghost predicate OthersStay(cs: seq<Cluster>, ds: seq<Cluster>, name: string) {
    |cs| <= |ds| && forall a, j :: 0 <= a < |cs| && 0 <= j < |cs[a].nodes| && cs[a].nodes[j].name != name ==>
      j < |ds[a].nodes| && ds[a].nodes[j] == cs[a].nodes[j]
  }

  /** The last record of each of these nodes is kept. */
  ghost predicate LatestRecorded(cs: seq<Cluster>, nodes: seq<Node>) {
    forall i :: 0 <= i < |nodes| && (forall k :: i < k < |nodes| ==> nodes[k].name != nodes[i].name) ==> Recorded(cs, InCluster(nodes[i]))
  }

  lemma {:induction false} NothingRecorded(cs: seq<Cluster>)
    ensures LatestRecorded(cs, [])
  {
  }

  lemma {:induction false} OneMoreRecorded(cs: seq<Cluster>, ds: seq<Cluster>, nodes: seq<Node>, i: nat)
    requires i < |nodes| && LatestRecorded(cs, nodes[..i]) && Recorded(ds, InCluster(nodes[i])) && OthersStay(cs, ds, nodes[i].name)
    ensures LatestRecorded(ds, nodes[..i + 1])
  {
    var more := nodes[..i + 1];
    forall k | 0 <= k < |more| && (forall l :: k < l < |more| ==> more[l].name != more[k].name)
      ensures Recorded(ds, InCluster(more[k]))
    {
      if k < i {
        assert more[i].name != more[k].name;
        assert forall l :: k < l < i ==> nodes[..i][l] == more[l];
        assert Recorded(cs, InCluster(nodes[..i][k]));
        var a, j :| 0 <= a < |cs| && 0 <= j < |cs[a].nodes| && cs[a].nodes[j] == InCluster(more[k]);
        assert ds[a].nodes[j] == InCluster(more[k]);
      }
    }
  }

  lemma {:induction false} RenewedIsRecorded(cs: seq<Cluster>, n: Node, i: nat, j: nat)
    requires i < |cs| && j < |cs[i].nodes| && cs[i].nodes[j].name == n.name
    ensures var ds := cs[i := cs[i].(nodes := cs[i].nodes[j := n])]; Recorded(ds, n) && OthersStay(cs, ds, n.name)
  {
    var ds := cs[i := cs[i].(nodes := cs[i].nodes[j := n])];
    assert ds[i].nodes[j] == n;
  }

  lemma {:induction false} AddedIsRecorded(cs: seq<Cluster>, n: Node, i: nat, ds: seq<Cluster>)
    requires i < |cs| == |ds| && ds == cs[i := ds[i]] && ds[i].nodes == cs[i].nodes + [n]
    ensures Recorded(ds, n) && OthersStay(cs, ds, n.name)
  {
    assert ds[i].nodes[|cs[i].nodes|] == n;
  }

  lemma {:induction false} OpenedIsRecorded(cs: seq<Cluster>, n: Node)
    ensures Recorded(cs + [Opening(n)], n) && OthersStay(cs, cs + [Opening(n)], n.name)
  {
    OpeningHasNode(n);
    assert (cs + [Opening(n)])[|cs|].nodes[0] == n;
  }

  lemma {:induction false} IdentsOneMore(nodes: seq<Node>, i: nat)
    requires i < |nodes|
    ensures Idents(nodes[..i + 1]) == Idents(nodes[..i]) + {IdentOf(nodes[i])}
    ensures Idents(nodes[..i + 1]) <= Idents(nodes) && IdentOf(nodes[i]) in Idents(nodes)
  {
    IdentsAppend(nodes[..i], nodes[i]);
    assert nodes[..i + 1] == nodes[..i] + [nodes[i]];
  }

  lemma {:induction false} IdentsAppend(nodes: seq<Node>, n: Node)
    ensures Idents(nodes + [n]) == Idents(nodes) + {IdentOf(n)}
  {
    var all := nodes + [n];
    forall x
      ensures x in Idents(all) <==> x in Idents(nodes) + {IdentOf(n)}
    {
      if x in Idents(nodes) {
        var i :| 0 <= i < |nodes| && IdentOf(nodes[i]) == x;
        assert all[i] == nodes[i];
      }
      assert all[|nodes|] == n;
    }
  }

  lemma {:induction false} ShapeIsKept(cs: seq<Cluster>, ds: seq<Cluster>, es: seq<Cluster>)
    ensures SameShape(cs, cs)
    ensures SameShape(cs, ds) && SameShape(ds, es) ==> SameShape(cs, es)
  {
  }

  lemma {:induction false} ClusterIsConsistent(cs: seq<Cluster>, ids: set<Ident>, a: nat)
    requires GroupedBy(cs, ids) && a < |cs|
    ensures Consistent(cs[a])
  {
  }

  lemma {:induction false} RenewedNodes(nodes: seq<Node>, j: nat, n: Node)
    requires j < |nodes| && IdentOf(n) == IdentOf(nodes[j])
    ensures Idents(nodes[j := n]) == Idents(nodes) && Cores(nodes[j := n]) == Cores(nodes)
  {
    var after := nodes[j := n];
    CoresWithout(nodes, j);
    CoresWithout(after, j);
    assert after[..j] + after[j + 1..] == nodes[..j] + nodes[j + 1..];
    assert forall i :: 0 <= i < |nodes| ==> IdentOf(after[i]) == IdentOf(nodes[i]);
  }

  /** A node found by its name is one seen before. */
  lemma {:induction false} FoundIsSeen(cs: seq<Cluster>, ids: set<Ident>, n: Node, i: nat, j: nat)
    requires GroupedBy(cs, ids) && Fixed(ids + {IdentOf(n)})
    requires i < |cs| && j < |cs[i].nodesName| && cs[i].nodesName[j] == n.name
    ensures IdentOf(n) in ids && j < |cs[i].nodes| && IdentOf(cs[i].nodes[j]) == IdentOf(n)
  {
    var x := IdentOf(cs[i].nodes[j]);
    assert x in Idents(cs[i].nodes);
    assert x in ids + {IdentOf(n)} && IdentOf(n) in ids + {IdentOf(n)};
  }

  /** Renewing the record of a known node. */
  lemma {:induction false} Renewed(cs: seq<Cluster>, ids: set<Ident>, n: Node, i: nat, j: nat)
    requires GroupedBy(cs, ids) && Fixed(ids + {IdentOf(n)})
    requires i < |cs| && j < |cs[i].nodesName| && cs[i].nodesName[j] == n.name
    ensures j < |cs[i].nodes|
    ensures var ds := cs[i := cs[i].(nodes := cs[i].nodes[j := n])];
            GroupedBy(ds, ids + {IdentOf(n)}) && SameShape(cs, ds)
  {
    hide Idents, Cores, Group, Fixed;
    FoundIsSeen(cs, ids, n, i, j);
    RenewedNodes(cs[i].nodes, j, n);
    var ds := cs[i := cs[i].(nodes := cs[i].nodes[j := n])];
    assert ids + {IdentOf(n)} == ids;
    assert forall a :: 0 <= a < |cs| ==> ClusterKey(ds[a]) == ClusterKey(cs[a]);
    forall x | x in ids
      ensures exists a :: 0 <= a < |ds| && ClusterKey(ds[a]) == x.key
    {
      var a :| 0 <= a < |cs| && ClusterKey(cs[a]) == x.key;
      assert ClusterKey(ds[a]) == x.key;
    }
  }

  /** A node of a known group that is not found by its name is new. */
  lemma {:induction false} NewInGroup(cs: seq<Cluster>, ids: set<Ident>, n: Node, i: nat)
    requires GroupedBy(cs, ids) && Fixed(ids + {IdentOf(n)}) && i < |cs| && ClusterKey(cs[i]) == KeyOf(n)
    requires forall j :: 0 <= j < |cs[i].nodes| ==> cs[i].nodes[j].name != n.name
    ensures !Known(ids, n.name)
  {
    forall x | x in ids
      ensures x.name != n.name
    {
      assert x in ids + {IdentOf(n)} && IdentOf(n) in ids + {IdentOf(n)};
      if x.key == KeyOf(n) {
        assert x in Idents(cs[i].nodes);
      }
    }
  }

  lemma {:induction false} GroupOneMore(ids: set<Ident>, x: Ident, key: Key)
    ensures Group(ids + {x}, key) == if x.key == key then Group(ids, key) + {x} else Group(ids, key)
  {
  }

  ghost function WithNode(c: Cluster, n: Node): Cluster {
    c.(nodes := c.nodes + [n], nodesName := c.nodesName + [n.name], numNodes := c.numNodes + 1, numCpus := c.numCpus + n.cores,
       numRunningCpus := c.numRunningCpus + if n.outOfService then 0 else n.coresFree)
  }

  lemma {:induction false} WithNodeConsistent(c: Cluster, n: Node)
    requires Consistent(c) && forall j :: 0 <= j < |c.nodes| ==> c.nodes[j].name != n.name
    ensures Consistent(WithNode(c, n))
  {
    assert (c.nodes + [n])[..|c.nodes|] == c.nodes;
  }

  /** Adding a new node to the cluster of its key. */
  lemma {:induction false} Added(cs: seq<Cluster>, ids: set<Ident>, n: Node, i: nat)
    requires GroupedBy(cs, ids) && Fixed(ids + {IdentOf(n)}) && i < |cs| && ClusterKey(cs[i]) == KeyOf(n)
    requires forall j :: 0 <= j < |cs[i].nodes| ==> cs[i].nodes[j].name != n.name
    ensures GroupedBy(cs[i := WithNode(cs[i], n)], ids + {IdentOf(n)}) && !Known(ids, n.name)
  {
    NewInGroup(cs, ids, n, i);
    WithNodeConsistent(cs[i], n);
    IdentsAppend(cs[i].nodes, n);
    var ds, all := cs[i := WithNode(cs[i], n)], ids + {IdentOf(n)};
    assert forall a :: 0 <= a < |cs| ==> ClusterKey(ds[a]) == ClusterKey(cs[a]);
    forall a | 0 <= a < |ds|
      ensures Idents(ds[a].nodes) == Group(all, ClusterKey(ds[a]))
    {
      GroupOneMore(ids, IdentOf(n), ClusterKey(ds[a]));
      assert a != i ==> ClusterKey(cs[a]) != ClusterKey(cs[i]);
    }
    forall x | x in all
      ensures exists a :: 0 <= a < |ds| && ClusterKey(ds[a]) == x.key
    {
      if x in ids {
        var a :| 0 <= a < |cs| && ClusterKey(cs[a]) == x.key;
        assert ClusterKey(ds[a]) == x.key;
      } else {
        assert ClusterKey(ds[i]) == x.key;
      }
    }
  }

  /** A cluster opened for a node. */
  ghost function Opening(n: Node): Cluster {
    WithNode(Cluster(KeyOf(n).clusterName, KeyOf(n).properties, [], [], 0, 0, 0), n)
  }

  lemma {:induction false} OpeningIsGroup(cs: seq<Cluster>, ids: set<Ident>, n: Node)
    requires GroupedBy(cs, ids)
    requires forall k :: 0 <= k < |cs| ==> ClusterKey(cs[k]) != KeyOf(n)
    ensures Consistent(Opening(n)) && ClusterKey(Opening(n)) == KeyOf(n)
    ensures Idents(Opening(n).nodes) == Group(ids + {IdentOf(n)}, KeyOf(n)) == {IdentOf(n)}
  {
    hide Idents, Group, GroupedBy, Consistent, Opening, KeyOf;
    OpeningHasNode(n);
    OpeningIsConsistent(n);
    IdentsOfOne(n);
    NoGroupYet(cs, ids, KeyOf(n));
    GroupOneMore(ids, IdentOf(n), KeyOf(n));
    KeyOfIdent(n);
  }

  lemma {:induction false} KeyOfIdent(n: Node)
    ensures IdentOf(n).key == KeyOf(n)
  {
  }

  lemma {:induction false} OpeningIsConsistent(n: Node)
    ensures Consistent(Opening(n)) && ClusterKey(Opening(n)) == KeyOf(n)
  {
    WithNodeConsistent(Cluster(KeyOf(n).clusterName, KeyOf(n).properties, [], [], 0, 0, 0), n);
  }

  lemma {:induction false} IdentsOfOne(n: Node)
    ensures Idents([n]) == {IdentOf(n)}
  {
    assert IdentOf([n][0]) in Idents([n]);
  }

  lemma {:induction false} NoGroupYet(cs: seq<Cluster>, ids: set<Ident>, key: Key)
    requires GroupedBy(cs, ids) && forall k :: 0 <= k < |cs| ==> ClusterKey(cs[k]) != key
    ensures Group(ids, key) == {}
  {
    forall x | x in ids
      ensures x.key != key
    {
      var a :| 0 <= a < |cs| && ClusterKey(cs[a]) == x.key;
    }
  }

  /** Opening a cluster for a node of a new group. */
  lemma {:induction false} Opened(cs: seq<Cluster>, ids: set<Ident>, n: Node)
    requires GroupedBy(cs, ids) && Fixed(ids + {IdentOf(n)})
    requires forall k :: 0 <= k < |cs| ==> ClusterKey(cs[k]) != KeyOf(n)
    ensures GroupedBy(cs + [Opening(n)], ids + {IdentOf(n)}) && !Known(ids, n.name)
  {
    hide Opening, Consistent, KeyOf, Idents, Group;
    var ds, all := cs + [Opening(n)], ids + {IdentOf(n)};
    OpeningIsGroup(cs, ids, n);
    OpeningHasNode(n);
    NewKeyIsNew(cs, ids, n);
    forall a | 0 <= a < |ds|
      ensures Idents(ds[a].nodes) == Group(all, ClusterKey(ds[a]))
    {
      GroupOneMore(ids, IdentOf(n), ClusterKey(ds[a]));
      assert a < |cs| ==> ds[a] == cs[a];
    }
    forall x | x in all
      ensures exists a :: 0 <= a < |ds| && ClusterKey(ds[a]) == x.key
    {
      if x in ids {
        var a :| 0 <= a < |cs| && ClusterKey(cs[a]) == x.key;
        assert ClusterKey(ds[a]) == x.key;
      } else {
        assert ClusterKey(ds[|cs|]) == x.key;
      }
    }
  }

  lemma {:induction false} OpeningHasNode(n: Node)
    ensures Opening(n).nodes == [n]
  {
  }

  lemma {:induction false} NewKeyIsNew(cs: seq<Cluster>, ids: set<Ident>, n: Node)
    requires GroupedBy(cs, ids) && Fixed(ids + {IdentOf(n)})
    requires forall k :: 0 <= k < |cs| ==> ClusterKey(cs[k]) != KeyOf(n)
    ensures !Known(ids, n.name)
  {
    forall x | x in ids
      ensures x.name != n.name
    {
      assert x in ids + {IdentOf(n)} && IdentOf(n) in ids + {IdentOf(n)};
    }
  }
}
