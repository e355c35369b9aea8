/** The routing-table store: for every node, an entry (cost, next hop) for
    every destination, and its construction from the network's links
    (`initialize_routing_table` in DistanceVectorRoutingMain.py).

    Nodes are the indices 0 .. n-1 of the `nodes` list, in list order. */
module RoutingTables {
  import opened Costs

  datatype Option<T> = None | Some(value: T)

  /** One routing entry: the best known cost to a destination and the
      neighbour to forward to (None when the destination is unreachable). */
  datatype Entry = Entry(cost: Cost, nextHop: Option<nat>)

  /** A link (a, b, cost) between two nodes, used in both directions. */
  datatype Edge = Edge(a: nat, b: nat, cost: nat)

  /** The error raised when a link names a node that is not in the network. */
  datatype RoutingError = UnknownNode(node: nat)

  datatype Result<T> = Success(value: T) | Failure(error: RoutingError)

  /** The whole store as a value: row i is node i's table, column j its
      entry for destination j. */
  type Table = seq<seq<Entry>>

  /** Every node has an entry for every node: the table is square. */
  predicate IsTable(t: Table)
  {
    forall i :: 0 <= i < |t| ==> |t[i]| == |t|
  }

  /** Two square tables of the same size with the same entries are equal. */
  lemma SameEntries(t: Table, u: Table)
    requires IsTable(t) && IsTable(u) && |t| == |u|
    requires forall i, j :: 0 <= i < |t| && 0 <= j < |t| ==> t[i][j] == u[i][j]
    ensures t == u
  {
    assert forall i :: 0 <= i < |t| ==> t[i] == u[i];
  }

  /** Entry of node i for itself. */
  function SelfEntry(i: nat): Entry
  {
    Entry(Fin(0), Some(i))
  }

  function Unreachable(): Entry
  {
    Entry(Inf, None)
  }

  /** Every link names nodes of the network. */
  predicate EdgesKnown(n: nat, edges: seq<Edge>)
  {
    forall k :: 0 <= k < |edges| ==> edges[k].a < n && edges[k].b < n
  }

  predicate NoSelfLoops(edges: seq<Edge>)
  {
    forall k :: 0 <= k < |edges| ==> edges[k].a != edges[k].b
  }

  /** Link e joins i and j, in either direction. */
  predicate Joins(e: Edge, i: nat, j: nat)
  {
    (e.a == i && e.b == j) || (e.a == j && e.b == i)
  }

  /** Some link of the list joins i and j. */
  predicate Linked(edges: seq<Edge>, i: nat, j: nat)
  {
    exists k :: 0 <= k < |edges| && Joins(edges[k], i, j)
  }

  /** w is a walk from i to j over the links: it starts at i, ends at j,
      and every two consecutive nodes of it are linked. */
  predicate IsWalk(edges: seq<Edge>, w: seq<nat>, i: nat, j: nat)
  {
    |w| > 0 && w[0] == i && w[|w| - 1] == j
    && forall k :: 0 <= k < |w| - 1 ==> Linked(edges, w[k], w[k + 1])
  }

  /** Some walk over the links joins i to j. */
  ghost predicate Reachable(edges: seq<Edge>, i: nat, j: nat)
  {
    exists w :: IsWalk(edges, w, i, j)
  }

  /** A walk from i to m followed by a walk from m to j joins i to j. */
  lemma JoinWalks(edges: seq<Edge>, i: nat, m: nat, j: nat)
    requires Reachable(edges, i, m) && Reachable(edges, m, j)
    ensures Reachable(edges, i, j)
  {
    var w1 :| IsWalk(edges, w1, i, m);
    var w2 :| IsWalk(edges, w2, m, j);
    var w := w1 + w2[1..];
    forall k | 0 <= k < |w| - 1
      ensures Linked(edges, w[k], w[k + 1])
    {
      if k < |w1| - 1 {
        assert w[k] == w1[k] && w[k + 1] == w1[k + 1];
      } else {
        assert w[k] == w2[k - |w1| + 1] && w[k + 1] == w2[k - |w1| + 2];
      }
    }
    assert IsWalk(edges, w, i, j);
  }

  /** The table before any link is applied: cost 0 to oneself through
      oneself, unreachable everywhere else. */
  function Blank(n: nat): (t: Table)
    ensures |t| == n && IsTable(t)
    ensures forall i :: 0 <= i < n ==> t[i][i] == SelfEntry(i)
    ensures forall i, j :: 0 <= i < n && 0 <= j < n && i != j ==> t[i][j] == Unreachable()
  {
    seq(n, i requires 0 <= i < n =>
      seq(n, j requires 0 <= j < n => if i == j then SelfEntry(i) else Unreachable()))
  }

  /** Applies one link: entry(a, b) := (cost, b), then entry(b, a) := (cost, a). */
  function SetEdge(t: Table, e: Edge): (r: Table)
    requires IsTable(t) && e.a < |t| && e.b < |t|
    ensures |r| == |t| && IsTable(r)
    ensures forall i, j :: 0 <= i < |t| && 0 <= j < |t| ==>
      r[i][j] == if Joins(e, i, j) then Entry(Fin(e.cost), Some(j)) else t[i][j]
  {
    var t1 := t[e.a := t[e.a][e.b := Entry(Fin(e.cost), Some(e.b))]];
    t1[e.b := t1[e.b][e.a := Entry(Fin(e.cost), Some(e.a))]]
  }

  /** Applies the links in list order; a later link overwrites an earlier one. */
  function ApplyEdges(t: Table, edges: seq<Edge>): (r: Table)
    requires IsTable(t) && EdgesKnown(|t|, edges)
    ensures |r| == |t| && IsTable(r)
    decreases |edges|
  {
    if edges == [] then t
    else SetEdge(ApplyEdges(t, edges[..|edges| - 1]), edges[|edges| - 1])
  }

  /** The initial routing table of a network with n nodes. */
  function Initialize(n: nat, edges: seq<Edge>): (r: Table)
    requires EdgesKnown(n, edges)
    ensures |r| == n && IsTable(r)
  {
    ApplyEdges(Blank(n), edges)
  }

  /** The index of the last link joining i and j, if any. */
  function LastJoining(edges: seq<Edge>, i: nat, j: nat): (r: Option<nat>)
    ensures r.None? <==> !Linked(edges, i, j)
    ensures r.Some? ==> r.value < |edges| && Joins(edges[r.value], i, j)
    ensures r.Some? ==> forall k :: r.value < k < |edges| ==> !Joins(edges[k], i, j)
    decreases |edges|
  {
    if edges == [] then None
    else if Joins(edges[|edges| - 1], i, j) then Some(|edges| - 1)
    else
      var r := LastJoining(edges[..|edges| - 1], i, j);
      assert forall k :: 0 <= k < |edges| - 1 ==> edges[..|edges| - 1][k] == edges[k];
      r
  }

  /** Entry (i, j) of the initial table is set by the last link joining i
      and j, whatever the order in which the link names them; with no such
      link it is the blank entry. */
  lemma {:induction false} InitialEntry(n: nat, edges: seq<Edge>, i: nat, j: nat)
    requires EdgesKnown(n, edges) && i < n && j < n
    ensures Initialize(n, edges)[i][j] ==
      match LastJoining(edges, i, j)
      case Some(k) => Entry(Fin(edges[k].cost), Some(j))
      case None => Blank(n)[i][j]
  {
    ApplyEdgesEntry(Blank(n), edges, i, j);
  }

  lemma {:induction false} ApplyEdgesEntry(t: Table, edges: seq<Edge>, i: nat, j: nat)
    requires IsTable(t) && EdgesKnown(|t|, edges) && i < |t| && j < |t|
    ensures ApplyEdges(t, edges)[i][j] ==
      match LastJoining(edges, i, j)
      case Some(k) => Entry(Fin(edges[k].cost), Some(j))
      case None => t[i][j]
    decreases |edges|
  {
    if edges != [] {
      var front := edges[..|edges| - 1];
      assert EdgesKnown(|t|, front);
      ApplyEdgesEntry(t, front, i, j);
      assert forall k :: 0 <= k < |front| ==> front[k] == edges[k];
    }
  }

  /** With no self-loop link, every node keeps the entry (0, itself). */
  lemma InitialSelfEntries(n: nat, edges: seq<Edge>)
    requires EdgesKnown(n, edges) && NoSelfLoops(edges)
    ensures forall i :: 0 <= i < n ==> Initialize(n, edges)[i][i] == SelfEntry(i)
  {
    forall i | 0 <= i < n
      ensures Initialize(n, edges)[i][i] == SelfEntry(i)
    {
      InitialEntry(n, edges, i, i);
    }
  }

  /** Links are symmetric: the initial cost from i to j is the cost from j
      to i, and a known destination j of i is reached through j itself, over
      the link. */
  lemma InitialSymmetric(n: nat, edges: seq<Edge>, i: nat, j: nat)
    requires EdgesKnown(n, edges) && i < n && j < n
    ensures Initialize(n, edges)[i][j].cost == Initialize(n, edges)[j][i].cost
    ensures i != j ==>
      (Initialize(n, edges)[i][j] == Unreachable() <==> !Linked(edges, i, j))
    ensures i != j && Linked(edges, i, j) ==> Initialize(n, edges)[i][j].nextHop == Some(j)
  {
    InitialEntry(n, edges, i, j);
    InitialEntry(n, edges, j, i);
    assert LastJoining(edges, i, j) == LastJoining(edges, j, i) by {
      assert forall k :: 0 <= k < |edges| ==> (Joins(edges[k], i, j) <==> Joins(edges[k], j, i));
      LastJoiningSymmetric(edges, i, j);
    }
  }

  lemma {:induction false} LastJoiningSymmetric(edges: seq<Edge>, i: nat, j: nat)
    ensures LastJoining(edges, i, j) == LastJoining(edges, j, i)
    decreases |edges|
  {
    if edges != [] {
      LastJoiningSymmetric(edges[..|edges| - 1], i, j);
    }
  }

  /** The mutable store of the routing tables of all nodes: a square array
      whose row i is node i's table. */
  class RoutingTable {
    const size: nat
    const entries: array2<Entry>

    ghost predicate Valid()
      reads this
    {
      entries.Length0 == size && entries.Length1 == size
    }

    /** The store as a value. */
    ghost function Contents(): (t: Table)
      reads this, entries
      requires Valid()
      ensures |t| == size && IsTable(t)
      ensures forall i, j :: 0 <= i < size && 0 <= j < size ==> t[i][j] == entries[i, j]
    {
      seq(size, i requires 0 <= i < size reads entries =>
        seq(size, j requires 0 <= j < size reads entries => entries[i, j]))
    }

    /** The store of n nodes with no link applied yet. */
    constructor (n: nat)
      ensures Valid() && size == n && fresh(entries)
      ensures Contents() == Blank(n)
    {
      var a := new Entry[n, n];
      var node := 0;
      while node < n
        invariant 0 <= node <= n
        invariant forall i, j :: 0 <= i < node && 0 <= j < n ==> a[i, j] == Blank(n)[i][j]
      {
        var dest := 0;
        while dest < n
          invariant 0 <= dest <= n
          invariant forall i, j :: 0 <= i < node && 0 <= j < n ==> a[i, j] == Blank(n)[i][j]
          invariant forall j :: 0 <= j < dest ==> a[node, j] == Unreachable()
        {
          a[node, dest] := Unreachable();
          dest := dest + 1;
        }
        a[node, node] := SelfEntry(node);
        node := node + 1;
      }
      size := n;
      entries := a;
      new;
      assert forall i :: 0 <= i < n ==> Contents()[i] == Blank(n)[i];
    }

    /** Records a direct link between a and b, with the given cost, in both
        directions. */
    method Link(e: Edge)
      requires Valid() && e.a < size && e.b < size
      modifies entries
      ensures Valid()
      ensures Contents() == SetEdge(old(Contents()), e)
    {
      ghost var before := Contents();
      entries[e.a, e.b] := Entry(Fin(e.cost), Some(e.b));
      entries[e.b, e.a] := Entry(Fin(e.cost), Some(e.a));
      assert forall i :: 0 <= i < size ==> Contents()[i] == SetEdge(before, e)[i];
    }

    /** A fully independent copy of the store. */
    method Clone() returns (c: RoutingTable)
      requires Valid()
      ensures fresh(c) && fresh(c.entries) && c.Valid() && c.size == size
      ensures c.Contents() == Contents()
    {
      var a := new Entry[size, size];
      var node := 0;
      while node < size
        invariant 0 <= node <= size
        invariant forall i, j :: 0 <= i < node && 0 <= j < size ==> a[i, j] == entries[i, j]
      {
        var dest := 0;
        while dest < size
          invariant 0 <= dest <= size
          invariant forall i, j :: 0 <= i < node && 0 <= j < size ==> a[i, j] == entries[i, j]
          invariant forall j :: 0 <= j < dest ==> a[node, j] == entries[node, j]
        {
          a[node, dest] := entries[node, dest];
          dest := dest + 1;
        }
        node := node + 1;
      }
      c := new RoutingTable.FromArray(size, a);
      assert forall i :: 0 <= i < size ==> c.Contents()[i] == Contents()[i];
    }

    constructor FromArray(n: nat, a: array2<Entry>)
      requires a.Length0 == n && a.Length1 == n
      ensures Valid() && size == n && entries == a
    {
      size := n;
      entries := a;
    }
  }

  /** The node whose lookup fails for link e: a when it is unknown, b otherwise. */
  function UnknownEnd(n: nat, e: Edge): nat
  {
    if e.a >= n then e.a else e.b
  }

  /** Link k is the first link of the list that names a node outside the
      network. */
  predicate FirstUnknownLink(n: nat, edges: seq<Edge>, k: nat)
  {
    k < |edges| && EdgesKnown(n, edges[..k]) && !(edges[k].a < n && edges[k].b < n)
  }

  /** Builds the initial store of a network of n nodes: the blank store,
      then every link in list order. A link naming a node outside the
      network fails with UnknownNode. */
  method InitializeRoutingTable(n: nat, edges: seq<Edge>) returns (r: Result<RoutingTable>)
    ensures r.Failure? <==> !EdgesKnown(n, edges)
    ensures r.Failure? ==>
      exists k: nat :: FirstUnknownLink(n, edges, k) && r.error == UnknownNode(UnknownEnd(n, edges[k]))
    ensures r.Success? ==> fresh(r.value) && fresh(r.value.entries) && r.value.Valid()
    ensures r.Success? ==> r.value.size == n && r.value.Contents() == Initialize(n, edges)
  {
    var t := new RoutingTable(n);
    var k := 0;
    while k < |edges|
      invariant 0 <= k <= |edges|
      invariant fresh(t) && fresh(t.entries) && t.Valid() && t.size == n
      invariant EdgesKnown(n, edges[..k])
      invariant t.Contents() == ApplyEdges(Blank(n), edges[..k])
    {
      var e := edges[k];
      if e.a >= n {
        assert FirstUnknownLink(n, edges, k);
        return Failure(UnknownNode(e.a));
      }
      if e.b >= n {
        assert FirstUnknownLink(n, edges, k);
        return Failure(UnknownNode(e.b));
      }
      ghost var done := edges[..k + 1];
      assert done[..k] == edges[..k] && done[k] == e;
      assert EdgesKnown(n, done);
      assert ApplyEdges(Blank(n), done) == SetEdge(ApplyEdges(Blank(n), edges[..k]), e);
      t.Link(e);
      k := k + 1;
    }
    assert edges[..k] == edges;
    r := Success(t);
  }
}
