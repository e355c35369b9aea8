/** Synchronous distance-vector routing (`distance_vector_routing` in
    DistanceVectorRoutingMain.py): rounds of Bellman-Ford relaxation over the
    whole store, each round reading only the store as it was before the round,
    until a round changes nothing or the round budget is spent. */
module DistanceVector {
  import opened Costs
  import opened RoutingTables

  /** Cost of reaching dest from node by first going to neighbour nb. */
  function Candidate(t: Table, node: nat, nb: nat, dest: nat): (r: Cost)
    requires IsTable(t) && node < |t| && nb < |t| && dest < |t|
    ensures r.Fin? <==> t[node][nb].cost.Fin? && t[nb][dest].cost.Fin?
    ensures AtMost(t[node][nb].cost, r) && AtMost(t[nb][dest].cost, r)
  {
    Add(t[node][nb].cost, t[nb][dest].cost)
  }

  /** Neighbour nb offers node a strictly cheaper route to dest. Only
      neighbours other than node itself with a finite cost are consulted, and
      never for node's own entry. */
  predicate Improves(t: Table, node: nat, nb: nat, dest: nat)
    requires IsTable(t) && node < |t| && nb < |t| && dest < |t|
  {
    nb != node && t[node][nb].cost.Fin? && dest != node
    && Less(Candidate(t, node, nb, dest), t[node][dest].cost)
  }

  /** Entry (node, dest) of the next store once neighbours 0 .. k-1 have been
      consulted: every improving neighbour overwrites what an earlier one
      wrote, because each is compared with the cost before the round. */
  function Relaxed(t: Table, node: nat, dest: nat, k: nat): (r: Entry)
    requires IsTable(t) && node < |t| && dest < |t| && k <= |t|
    ensures AtMost(r.cost, t[node][dest].cost)
    decreases k
  {
    if k == 0 then t[node][dest]
    else if Improves(t, node, k - 1, dest) then
      Entry(Candidate(t, node, k - 1, dest), t[node][k - 1].nextHop)
    else Relaxed(t, node, dest, k - 1)
  }

  /** The store after one round of relaxation. */
  function Round(t: Table): (r: Table)
    requires IsTable(t)
    ensures |r| == |t| && IsTable(r)
  {
    seq(|t|, i requires 0 <= i < |t| =>
      seq(|t|, j requires 0 <= j < |t| => Relaxed(t, i, j, |t|)))
  }

  /** Some node has a neighbour that offers a cheaper route: a round will
      report an update. */
  predicate Improvable(t: Table)
    requires IsTable(t)
  {
    exists i, m, j :: 0 <= i < |t| && 0 <= m < |t| && 0 <= j < |t| && Improves(t, i, m, j)
  }

  /** The store returned after at most maxIterations rounds, stopping after
      the first round that updates nothing. */
  function Run(t: Table, maxIterations: int): (r: Table)
    requires IsTable(t)
    ensures |r| == |t| && IsTable(r)
    decreases maxIterations
  {
    if maxIterations <= 0 then t
    else if !Improvable(t) then Round(t)
    else Run(Round(t), maxIterations - 1)
  }

  /** k rounds, with no early stop: the reference against which Run is
      characterised. */
  function Iterate(t: Table, k: nat): (r: Table)
    requires IsTable(t)
    ensures |r| == |t| && IsTable(r)
    decreases k
  {
    if k == 0 then t else Iterate(Round(t), k - 1)
  }

  /** Number of rounds of Run that update something. */
  function UpdatingRounds(t: Table, maxIterations: int): nat
    requires IsTable(t)
    decreases maxIterations
  {
    if maxIterations <= 0 || !Improvable(t) then 0
    else 1 + UpdatingRounds(Round(t), maxIterations - 1)
  }

  // ---------------------------------------------------------------------
  // One entry of one round

  /** With no improving neighbour among the first k, the entry is the one
      from before the round. */
  lemma {:induction false} RelaxedUnimproved(t: Table, node: nat, dest: nat, k: nat)
    requires IsTable(t) && node < |t| && dest < |t| && k <= |t|
    requires forall m :: 0 <= m < k ==> !Improves(t, node, m, dest)
    ensures Relaxed(t, node, dest, k) == t[node][dest]
    decreases k
  {
    if k > 0 {
      RelaxedUnimproved(t, node, dest, k - 1);
    }
  }

  /** The last improving neighbour among the first k decides the entry: its
      candidate cost, and the next hop that node already uses towards it. */
  lemma {:induction false} RelaxedLastImprover(t: Table, node: nat, dest: nat, k: nat, m: nat)
    requires IsTable(t) && node < |t| && dest < |t| && k <= |t|
    requires m < k && Improves(t, node, m, dest)
    requires forall m' :: m < m' < k ==> !Improves(t, node, m', dest)
    ensures Relaxed(t, node, dest, k) == Entry(Candidate(t, node, m, dest), t[node][m].nextHop)
    decreases k
  {
    if k - 1 != m {
      RelaxedLastImprover(t, node, dest, k - 1, m);
    }
  }

  /** A relaxed entry never costs more than before the round; if it differs
      at all, it costs strictly less and was written by an improving
      neighbour reached at a finite cost, with a finite candidate. */
  lemma {:induction false} RelaxedBound(t: Table, node: nat, dest: nat, k: nat)
    requires IsTable(t) && node < |t| && dest < |t| && k <= |t|
    ensures AtMost(Relaxed(t, node, dest, k).cost, t[node][dest].cost)
    ensures Relaxed(t, node, dest, k) != t[node][dest] ==>
      Less(Relaxed(t, node, dest, k).cost, t[node][dest].cost)
      && (exists m :: 0 <= m < k && Improves(t, node, m, dest)
            && Relaxed(t, node, dest, k) == Entry(Candidate(t, node, m, dest), t[node][m].nextHop))
    decreases k
  {
    if k > 0 && !Improves(t, node, k - 1, dest) {
      RelaxedBound(t, node, dest, k - 1);
    }
  }

  // ---------------------------------------------------------------------
  // Properties of a round

  /** An improving neighbour is reached at finite cost and reaches dest at
      finite cost, and each of the two legs alone is already cheaper than
      node's entry for dest: a neighbour at Inf, or one with no route to dest,
      never improves anything. */
  lemma ImproverIsCloser(t: Table, node: nat, nb: nat, dest: nat)
    requires IsTable(t) && node < |t| && nb < |t| && dest < |t|
    requires Improves(t, node, nb, dest)
    ensures t[node][nb].cost.Fin? && t[nb][dest].cost.Fin?
    ensures Less(t[node][nb].cost, t[node][dest].cost) && Less(t[nb][dest].cost, t[node][dest].cost)
  {
    var c := Candidate(t, node, nb, dest);
    assert AtMost(t[node][nb].cost, c) && AtMost(t[nb][dest].cost, c) && Less(c, t[node][dest].cost);
  }

  /** Exact content of an entry after a round: unchanged when no neighbour
      improves it, otherwise the candidate of the LAST improving neighbour in
      node order (not necessarily the cheapest candidate). */
  lemma RoundEntry(t: Table, i: nat, j: nat)
    requires IsTable(t) && i < |t| && j < |t|
    ensures (forall m :: 0 <= m < |t| ==> !Improves(t, i, m, j)) ==> Round(t)[i][j] == t[i][j]
    ensures forall m :: (0 <= m < |t| && Improves(t, i, m, j)
                         && forall m' :: m < m' < |t| ==> !Improves(t, i, m', j)) ==>
      Round(t)[i][j] == Entry(Candidate(t, i, m, j), t[i][m].nextHop)
  {
    if forall m :: 0 <= m < |t| ==> !Improves(t, i, m, j) {
      RelaxedUnimproved(t, i, j, |t|);
    }
    forall m | 0 <= m < |t| && Improves(t, i, m, j)
      && (forall m' :: m < m' < |t| ==> !Improves(t, i, m', j))
      ensures Round(t)[i][j] == Entry(Candidate(t, i, m, j), t[i][m].nextHop)
    {
      RelaxedLastImprover(t, i, j, |t|, m);
    }
  }

  /** Costs never increase in a round; an entry that changes gets a strictly
      smaller cost, from a neighbour with finite cost whose two-hop candidate
      is finite, and inherits the next hop node uses towards that neighbour. */
  lemma RoundNeverIncreases(t: Table, i: nat, j: nat)
    requires IsTable(t) && i < |t| && j < |t|
    ensures AtMost(Round(t)[i][j].cost, t[i][j].cost)
    ensures Round(t)[i][j] != t[i][j] ==>
      Less(Round(t)[i][j].cost, t[i][j].cost)
      && (exists m :: 0 <= m < |t| && m != i && t[i][m].cost.Fin? && t[m][j].cost.Fin?
            && Round(t)[i][j] == Entry(Candidate(t, i, m, j), t[i][m].nextHop))
  {
    RelaxedBound(t, i, j, |t|);
  }

  /** A node's entry for itself is never touched by a round. */
  lemma RoundKeepsSelfEntry(t: Table, i: nat)
    requires IsTable(t) && i < |t|
    ensures Round(t)[i][i] == t[i][i]
  {
    RelaxedUnimproved(t, i, i, |t|);
  }

  /** A round changes the store exactly when some neighbour offers an
      improvement; otherwise the round returns the store unchanged. */
  lemma RoundChangesIffImprovable(t: Table)
    requires IsTable(t)
    ensures Round(t) != t <==> Improvable(t)
  {
    if Improvable(t) {
      var i, m, j :| 0 <= i < |t| && 0 <= m < |t| && 0 <= j < |t| && Improves(t, i, m, j);
      var last := LastImprover(t, i, j, m);
      RelaxedLastImprover(t, i, j, |t|, last);
      assert Round(t)[i][j] != t[i][j];
    } else {
      forall i, j | 0 <= i < |t| && 0 <= j < |t|
        ensures Round(t)[i][j] == t[i][j]
      {
        RelaxedUnimproved(t, i, j, |t|);
      }
      assert forall i :: 0 <= i < |t| ==> Round(t)[i] == t[i];
    }
  }

  /** The largest improving neighbour of node for dest, at least m. */
  function LastImprover(t: Table, node: nat, dest: nat, m: nat): (r: nat)
    requires IsTable(t) && node < |t| && dest < |t| && m < |t| && Improves(t, node, m, dest)
    ensures m <= r < |t| && Improves(t, node, r, dest)
    ensures forall m' :: r < m' < |t| ==> !Improves(t, node, m', dest)
    decreases |t| - m
  {
    if forall m' :: m < m' < |t| ==> !Improves(t, node, m', dest) then m
    else
      var m' :| m < m' < |t| && Improves(t, node, m', dest);
      LastImprover(t, node, dest, m')
  }

  /** At a fixed point the triangle inequality holds: for every node n, every
      other node m it reaches at finite cost, and every destination d other
      than n, going through m is never cheaper than n's entry. */
  lemma FixedPointTriangle(t: Table, n: nat, m: nat, d: nat)
    requires IsTable(t) && n < |t| && m < |t| && d < |t|
    requires Round(t) == t
    requires m != n && t[n][m].cost.Fin? && d != n
    ensures AtMost(t[n][d].cost, Add(t[n][m].cost, t[m][d].cost))
  {
    RoundChangesIffImprovable(t);
    assert !Improves(t, n, m, d);
  }

  // ---------------------------------------------------------------------
  // Invariants kept by every round

  /** Every node reaches itself at cost 0 through itself. */
  predicate SelfEntries(t: Table)
    requires IsTable(t)
  {
    forall i :: 0 <= i < |t| ==> t[i][i] == SelfEntry(i)
  }

  /** An entry is unreachable exactly when it has no next hop, and the next
      hop towards another node is always a node linked directly to the
      owner: the first link of the route. */
  predicate HopsFollowLinks(t: Table, edges: seq<Edge>)
    requires IsTable(t)
  {
    forall i, j :: 0 <= i < |t| && 0 <= j < |t| ==>
      (t[i][j].cost.Inf? <==> t[i][j].nextHop.None?)
      && (i != j && t[i][j].nextHop.Some? ==> Linked(edges, i, t[i][j].nextHop.value))
  }

  lemma RoundKeepsSelfEntries(t: Table)
    requires IsTable(t) && SelfEntries(t)
    ensures SelfEntries(Round(t))
  {
    forall i | 0 <= i < |t|
      ensures Round(t)[i][i] == SelfEntry(i)
    {
      RoundKeepsSelfEntry(t, i);
    }
  }

  lemma RoundKeepsHops(t: Table, edges: seq<Edge>)
    requires IsTable(t) && HopsFollowLinks(t, edges)
    ensures HopsFollowLinks(Round(t), edges)
  {
    forall i, j | 0 <= i < |t| && 0 <= j < |t|
      ensures (Round(t)[i][j].cost.Inf? <==> Round(t)[i][j].nextHop.None?)
      ensures i != j && Round(t)[i][j].nextHop.Some? ==> Linked(edges, i, Round(t)[i][j].nextHop.value)
    {
      RoundNeverIncreases(t, i, j);
    }
  }

  /** In the initial store an entry is unreachable exactly when it has no
      next hop, and the next hop towards another node is that node, over a
      direct link. Self-loop links do not disturb this. */
  lemma InitialHops(n: nat, edges: seq<Edge>)
    requires EdgesKnown(n, edges)
    ensures HopsFollowLinks(Initialize(n, edges), edges)
  {
    var t: Table := Initialize(n, edges);
    forall i, j | 0 <= i < n && 0 <= j < n
      ensures (t[i][j].cost.Inf? <==> t[i][j].nextHop.None?)
      ensures i != j && t[i][j].nextHop.Some? ==> Linked(edges, i, t[i][j].nextHop.value)
    {
      InitialEntry(n, edges, i, j);
      match LastJoining(edges, i, j)
      case Some(k) =>
        assert t[i][j] == Entry(Fin(edges[k].cost), Some(j));
        assert Joins(edges[k], i, j);
        assert Linked(edges, i, j);
      case None =>
        assert t[i][j] == Blank(n)[i][j];
    }
  }

  /** Every finite cost belongs to a pair of nodes joined by a walk over the
      links. */
  ghost predicate FiniteOnlyIfReachable(t: Table, edges: seq<Edge>)
    requires IsTable(t)
  {
    forall i, j :: 0 <= i < |t| && 0 <= j < |t| && t[i][j].cost.Fin? ==> Reachable(edges, i, j)
  }

  /** Initially only a node itself and its direct neighbours have finite
      costs. */
  lemma InitialReach(n: nat, edges: seq<Edge>)
    requires EdgesKnown(n, edges)
    ensures FiniteOnlyIfReachable(Initialize(n, edges), edges)
  {
    var t: Table := Initialize(n, edges);
    forall i, j | 0 <= i < n && 0 <= j < n && t[i][j].cost.Fin?
      ensures Reachable(edges, i, j)
    {
      InitialEntry(n, edges, i, j);
      match LastJoining(edges, i, j)
      case Some(k) =>
        assert Joins(edges[k], i, j);
        assert IsWalk(edges, [i, j], i, j);
      case None =>
        assert IsWalk(edges, [i], i, i);
    }
  }

  /** A round makes an entry finite only through two finite legs, so it
      never reaches across to a node with no walk to it. */
  lemma RoundKeepsReach(t: Table, edges: seq<Edge>)
    requires IsTable(t) && FiniteOnlyIfReachable(t, edges)
    ensures FiniteOnlyIfReachable(Round(t), edges)
  {
    forall i, j | 0 <= i < |t| && 0 <= j < |t| && Round(t)[i][j].cost.Fin?
      ensures Reachable(edges, i, j)
    {
      RoundNeverIncreases(t, i, j);
      if Round(t)[i][j] != t[i][j] {
        var m :| 0 <= m < |t| && m != i && t[i][m].cost.Fin? && t[m][j].cost.Fin?
          && Round(t)[i][j] == Entry(Candidate(t, i, m, j), t[i][m].nextHop);
        JoinWalks(edges, i, m, j);
      }
    }
  }

  /** Every entry costs the same in both directions. */
  predicate CostSymmetric(t: Table)
    requires IsTable(t)
  {
    forall i, j :: 0 <= i < |t| && 0 <= j < |t| ==> t[i][j].cost == t[j][i].cost
  }

  /** With symmetric costs, m improves i's route to j exactly when it
      improves j's route to i, and both candidates cost the same. */
  lemma ImprovesSymmetric(t: Table, i: nat, m: nat, j: nat)
    requires IsTable(t) && CostSymmetric(t) && i < |t| && m < |t| && j < |t|
    ensures Improves(t, i, m, j) <==> Improves(t, j, m, i)
    ensures Candidate(t, i, m, j) == Candidate(t, j, m, i)
  {
    assert t[i][m].cost == t[m][i].cost && t[m][j].cost == t[j][m].cost;
    assert t[i][j].cost == t[j][i].cost;
  }

  /** With symmetric costs, (i, j) and (j, i) have the same improving
      neighbours, hence the same last improver and the same candidate
      cost, so they still cost the same after the round. */
  lemma RoundEntrySymmetric(t: Table, i: nat, j: nat)
    requires IsTable(t) && CostSymmetric(t) && i < |t| && j < |t|
    ensures Round(t)[i][j].cost == Round(t)[j][i].cost
  {
    forall m | 0 <= m < |t|
      ensures Improves(t, i, m, j) <==> Improves(t, j, m, i)
    {
      ImprovesSymmetric(t, i, m, j);
    }
    if m :| 0 <= m < |t| && Improves(t, i, m, j) {
      var last := LastImprover(t, i, j, m);
      ImprovesSymmetric(t, i, last, j);
      RelaxedLastImprover(t, i, j, |t|, last);
      RelaxedLastImprover(t, j, i, |t|, last);
    } else {
      RelaxedUnimproved(t, i, j, |t|);
      RelaxedUnimproved(t, j, i, |t|);
    }
  }

  /** A round keeps costs symmetric. */
  lemma RoundKeepsCostSymmetry(t: Table)
    requires IsTable(t) && CostSymmetric(t)
    ensures CostSymmetric(Round(t))
  {
    forall i, j | 0 <= i < |t| && 0 <= j < |t|
      ensures Round(t)[i][j].cost == Round(t)[j][i].cost
    {
      RoundEntrySymmetric(t, i, j);
    }
  }

  // ---------------------------------------------------------------------
  // The whole run

  /** Run does exactly UpdatingRounds(t, k) updating rounds and no others:
      every round before it updates something, the result is the store after
      those rounds, and if the budget was not exhausted by updating rounds
      the result is a fixed point. */
  lemma {:induction false} RunOutcome(t: Table, maxIterations: int)
    requires IsTable(t)
    ensures UpdatingRounds(t, maxIterations) <= if maxIterations < 0 then 0 else maxIterations
    ensures Run(t, maxIterations) == Iterate(t, UpdatingRounds(t, maxIterations))
    ensures forall r :: 0 <= r < UpdatingRounds(t, maxIterations) ==> Improvable(Iterate(t, r))
    ensures UpdatingRounds(t, maxIterations) < maxIterations ==> !Improvable(Run(t, maxIterations))
    decreases maxIterations
  {
    if maxIterations <= 0 {
    } else if !Improvable(t) {
      RoundChangesIffImprovable(t);
    } else {
      var u := UpdatingRounds(Round(t), maxIterations - 1);
      RunOutcome(Round(t), maxIterations - 1);
      forall r | 0 <= r < u + 1
        ensures Improvable(Iterate(t, r))
      {
        if r > 0 {
          assert Iterate(t, r) == Iterate(Round(t), r - 1);
        }
      }
    }
  }

  /** Over a whole run costs never increase. */
  lemma {:induction false} RunNeverIncreases(t: Table, maxIterations: int)
    requires IsTable(t)
    ensures forall i, j :: 0 <= i < |t| && 0 <= j < |t| ==>
      AtMost(Run(t, maxIterations)[i][j].cost, t[i][j].cost)
    decreases maxIterations
  {
    if maxIterations > 0 {
      forall i, j | 0 <= i < |t| && 0 <= j < |t|
        ensures AtMost(Run(t, maxIterations)[i][j].cost, t[i][j].cost)
      {
        RoundNeverIncreases(t, i, j);
        if Improvable(t) {
          RunNeverIncreases(Round(t), maxIterations - 1);
          AtMostTransitive(Run(t, maxIterations)[i][j].cost, Round(t)[i][j].cost, t[i][j].cost);
        }
      }
    }
  }

  /** Over a whole run every node keeps the entry (0, itself). */
  lemma {:induction false} RunKeepsSelfEntries(t: Table, maxIterations: int)
    requires IsTable(t) && SelfEntries(t)
    ensures SelfEntries(Run(t, maxIterations))
    decreases maxIterations
  {
    if maxIterations > 0 {
      RoundKeepsSelfEntries(t);
      if Improvable(t) {
        RunKeepsSelfEntries(Round(t), maxIterations - 1);
      }
    }
  }

  /** Without self-loop links, every node still reaches itself at cost 0
      through itself when the run ends. */
  lemma RoutedSelfEntries(n: nat, edges: seq<Edge>, maxIterations: int)
    requires EdgesKnown(n, edges) && NoSelfLoops(edges)
    ensures forall i :: 0 <= i < n ==> Run(Initialize(n, edges), maxIterations)[i][i] == SelfEntry(i)
  {
    InitialSelfEntries(n, edges);
    RunKeepsSelfEntries(Initialize(n, edges), maxIterations);
  }

  /** Over a whole run next hops stay first links of their routes. */
  lemma {:induction false} RunKeepsHops(t: Table, edges: seq<Edge>, maxIterations: int)
    requires IsTable(t) && HopsFollowLinks(t, edges)
    ensures HopsFollowLinks(Run(t, maxIterations), edges)
    decreases maxIterations
  {
    if maxIterations > 0 {
      RoundKeepsHops(t, edges);
      if Improvable(t) {
        RunKeepsHops(Round(t), edges, maxIterations - 1);
      }
    }
  }

  /** Over a whole run costs stay symmetric. */
  lemma {:induction false} RunKeepsCostSymmetry(t: Table, maxIterations: int)
    requires IsTable(t) && CostSymmetric(t)
    ensures CostSymmetric(Run(t, maxIterations))
    decreases maxIterations
  {
    if maxIterations > 0 {
      RoundKeepsCostSymmetry(t);
      if Improvable(t) {
        RunKeepsCostSymmetry(Round(t), maxIterations - 1);
      }
    }
  }

  /** Links are symmetric, and so is every cost of the routed store: the
      cost from i to j equals the cost from j to i when the run ends. */
  lemma RoutedCostsSymmetric(n: nat, edges: seq<Edge>, maxIterations: int)
    requires EdgesKnown(n, edges)
    ensures CostSymmetric(Run(Initialize(n, edges), maxIterations))
  {
    var t: Table := Initialize(n, edges);
    forall i, j | 0 <= i < n && 0 <= j < n
      ensures t[i][j].cost == t[j][i].cost
    {
      InitialSymmetric(n, edges, i, j);
    }
    RunKeepsCostSymmetry(t, maxIterations);
  }

  /** Over a whole run finite costs stay between nodes joined by a walk. */
  lemma {:induction false} RunKeepsReach(t: Table, edges: seq<Edge>, maxIterations: int)
    requires IsTable(t) && FiniteOnlyIfReachable(t, edges)
    ensures FiniteOnlyIfReachable(Run(t, maxIterations), edges)
    decreases maxIterations
  {
    if maxIterations > 0 {
      RoundKeepsReach(t, edges);
      if Improvable(t) {
        RunKeepsReach(Round(t), edges, maxIterations - 1);
      }
    }
  }

  /** Nodes in different components of the network stay unreachable from
      each other, with no next hop, however many rounds are run. */
  lemma DisconnectedStaysUnreachable(n: nat, edges: seq<Edge>, maxIterations: int, i: nat, j: nat)
    requires EdgesKnown(n, edges) && i < n && j < n
    requires !Reachable(edges, i, j)
    ensures Run(Initialize(n, edges), maxIterations)[i][j] == Unreachable()
  {
    InitialReach(n, edges);
    RunKeepsReach(Initialize(n, edges), edges, maxIterations);
    InitialHops(n, edges);
    RunKeepsHops(Initialize(n, edges), edges, maxIterations);
  }

  /** Running one more round on a converged result changes nothing, and the
      result satisfies the triangle inequality. */
  lemma ConvergedIsFixedPoint(t: Table, maxIterations: int)
    requires IsTable(t)
    requires UpdatingRounds(t, maxIterations) < maxIterations
    ensures Round(Run(t, maxIterations)) == Run(t, maxIterations)
    ensures forall n, m, d :: (0 <= n < |t| && 0 <= m < |t| && 0 <= d < |t|
                               && m != n && Run(t, maxIterations)[n][m].cost.Fin? && d != n) ==>
      AtMost(Run(t, maxIterations)[n][d].cost,
             Add(Run(t, maxIterations)[n][m].cost, Run(t, maxIterations)[m][d].cost))
  {
    var r := Run(t, maxIterations);
    RunOutcome(t, maxIterations);
    RoundChangesIffImprovable(r);
    forall n, m, d | 0 <= n < |t| && 0 <= m < |t| && 0 <= d < |t|
      && m != n && r[n][m].cost.Fin? && d != n
      ensures AtMost(r[n][d].cost, Add(r[n][m].cost, r[m][d].cost))
    {
      FixedPointTriangle(r, n, m, d);
    }
  }

  // ---------------------------------------------------------------------
  // The imperative algorithm

  /** The arrays current and next hold a store of |t| nodes; current holds t. */
  ghost predicate Holds(t: Table, current: array2<Entry>, next: array2<Entry>)
    reads current
  {
    IsTable(t) && current != next
    && current.Length0 == |t| && current.Length1 == |t|
    && next.Length0 == |t| && next.Length1 == |t|
    && forall i, j :: 0 <= i < |t| && 0 <= j < |t| ==> current[i, j] == t[i][j]
  }

  /** The innermost loop of a round: for neighbour nb of node, writes into
      next every destination for which going through nb is strictly cheaper
      than node's cost in current, the store before the round, and reports
      whether it wrote any. */
  method RelaxThrough(ghost t: Table, current: array2<Entry>, next: array2<Entry>, node: nat, nb: nat)
    returns (improved: bool)
    requires Holds(t, current, next)
    requires node < |t| && nb < |t|
    requires nb != node && current[node, nb].cost.Fin?
    modifies next
    ensures forall i, j :: 0 <= i < |t| && 0 <= j < |t| ==>
      next[i, j] ==
        if i == node && Improves(t, node, nb, j)
        then Entry(Candidate(t, node, nb, j), t[node][nb].nextHop)
        else old(next[i, j])
    ensures improved == exists j :: 0 <= j < |t| && Improves(t, node, nb, j)
  {
    var n := current.Length0;
    improved := false;
    var dest := 0;
    while dest < n
      invariant 0 <= dest <= n
      invariant forall i, j :: 0 <= i < n && 0 <= j < n ==>
        next[i, j] ==
          if i == node && j < dest && Improves(t, node, nb, j)
          then Entry(Candidate(t, node, nb, j), t[node][nb].nextHop)
          else old(next[i, j])
      invariant improved == exists j :: 0 <= j < dest && Improves(t, node, nb, j)
    {
      if dest != node {
        var candidate := Add(current[node, nb].cost, current[nb, dest].cost);
        if Less(candidate, current[node, dest].cost) {
          next[node, dest] := Entry(candidate, current[node, nb].nextHop);
          improved := true;
        }
      }
      dest := dest + 1;
    }
  }

  /** Some neighbour offers node a cheaper route to some destination. */
  predicate RowImprovable(t: Table, node: nat)
    requires IsTable(t) && node < |t|
  {
    exists m, j :: 0 <= m < |t| && 0 <= j < |t| && Improves(t, node, m, j)
  }

  /** One of the first k nodes has an improvable row. */
  predicate SomeRowImprovable(t: Table, k: nat)
    requires IsTable(t) && k <= |t|
  {
    k > 0 && (SomeRowImprovable(t, k - 1) || RowImprovable(t, k - 1))
  }

  lemma {:induction false} SomeRowImprovableIff(t: Table, k: nat)
    requires IsTable(t) && k <= |t|
    ensures SomeRowImprovable(t, k) <==>
      exists i, m, j :: 0 <= i < k && 0 <= m < |t| && 0 <= j < |t| && Improves(t, i, m, j)
  {
    if k > 0 {
      SomeRowImprovableIff(t, k - 1);
      if RowImprovable(t, k - 1) {
        var m, j :| 0 <= m < |t| && 0 <= j < |t| && Improves(t, k - 1, m, j);
        assert Improves(t, k - 1, m, j);
      }
      if exists i, m, j :: 0 <= i < k && 0 <= m < |t| && 0 <= j < |t| && Improves(t, i, m, j) {
        var i, m, j :| 0 <= i < k && 0 <= m < |t| && 0 <= j < |t| && Improves(t, i, m, j);
        if i == k - 1 {
          assert RowImprovable(t, k - 1);
        }
      }
    }
  }

  /** The middle loop of a round: relaxes node's row through every
      neighbour in node order, and reports whether any entry was written. */
  method RelaxNode(ghost t: Table, current: array2<Entry>, next: array2<Entry>, node: nat)
    returns (improved: bool)
    requires Holds(t, current, next)
    requires node < |t|
    requires forall j :: 0 <= j < |t| ==> next[node, j] == t[node][j]
    modifies next
    ensures forall i, j :: 0 <= i < |t| && 0 <= j < |t| ==>
      next[i, j] == if i == node then Relaxed(t, i, j, |t|) else old(next[i, j])
    ensures improved == RowImprovable(t, node)
  {
    var n := current.Length0;
    improved := false;
    var nb := 0;
    while nb < n
      invariant 0 <= nb <= n
      invariant forall i, j :: 0 <= i < n && 0 <= j < n ==>
        next[i, j] == if i == node then Relaxed(t, i, j, nb) else old(next[i, j])
      invariant improved == exists m, j :: 0 <= m < nb && 0 <= j < n && Improves(t, node, m, j)
    {
      if nb != node && current[node, nb].cost != Inf {
        var through := RelaxThrough(t, current, next, node, nb);
        improved := improved || through;
      }
      nb := nb + 1;
    }
  }

  /** A store whose every entry is the relaxed one holds the next round. */
  lemma AllRowsRelaxed(t: Table, next: RoutingTable)
    requires IsTable(t) && next.Valid() && next.size == |t|
    requires forall i, j :: 0 <= i < |t| && 0 <= j < |t| ==> next.entries[i, j] == Relaxed(t, i, j, |t|)
    ensures next.Contents() == Round(t)
  {
    SameEntries(next.Contents(), Round(t));
  }

  /** The node loop of a round: relaxes every node's row of next, a copy of
      the store before the round, and reports whether any entry was written. */
  method RelaxAll(ghost t: Table, current: array2<Entry>, next: array2<Entry>)
    returns (updated: bool)
    requires Holds(t, current, next)
    requires forall i, j :: 0 <= i < |t| && 0 <= j < |t| ==> next[i, j] == t[i][j]
    modifies next
    ensures forall i, j :: 0 <= i < |t| && 0 <= j < |t| ==> next[i, j] == Relaxed(t, i, j, |t|)
    ensures updated == Improvable(t)
  {
    var n := current.Length0;
    updated := false;
    var node := 0;
    while node < n
      invariant 0 <= node <= n
      invariant Holds(t, current, next)
      invariant forall i, j :: 0 <= i < n && 0 <= j < n ==>
        next[i, j] == if i < node then Relaxed(t, i, j, n) else t[i][j]
      invariant updated == SomeRowImprovable(t, node)
    {
      var improved := RelaxNode(t, current, next, node);
      updated := updated || improved;
      node := node + 1;
    }
    SomeRowImprovableIff(t, n);
  }

  /** One round: deep-copies the store, writes every strictly improving
      candidate (compared with the store before the round) into the copy,
      and reports whether anything was written. */
  method RelaxRound(table: RoutingTable) returns (next: RoutingTable, updated: bool)
    requires table.Valid()
    ensures fresh(next) && fresh(next.entries) && next.Valid() && next.size == table.size
    ensures next.Contents() == Round(table.Contents())
    ensures updated == Improvable(table.Contents())
  {
    ghost var t := table.Contents();
    next := table.Clone();
    updated := RelaxAll(t, table.entries, next.entries);
    AllRowsRelaxed(t, next);
  }

  /** The round loop: runs at most maxIterations rounds, swapping in the
      new store after each, and stops after the first round with no update. */
  method RunRounds(table: RoutingTable, maxIterations: int) returns (result: RoutingTable)
    requires table.Valid()
    ensures result.Valid() && result.size == table.size
    ensures result.Contents() == Run(table.Contents(), maxIterations)
  {
    ghost var goal := Run(table.Contents(), maxIterations);
    result := table;
    var iteration := 0;
    while iteration < maxIterations
      invariant result.Valid() && result.size == table.size
      invariant goal == Run(result.Contents(), maxIterations - iteration)
    {
      ghost var before := result.Contents();
      var next, updated := RelaxRound(result);
      result := next;
      if !updated {
        assert goal == Round(before);
        break;
      }
      iteration := iteration + 1;
    }
  }

  /** Builds the initial store, then runs at most maxIterations rounds (10
      unless given), stopping after the first round with no update. A link naming an
      unknown node fails before any round. */
  method DistanceVectorRouting(n: nat, edges: seq<Edge>, maxIterations: int := 10)
    returns (r: Result<RoutingTable>)
    ensures r.Failure? <==> !EdgesKnown(n, edges)
    ensures r.Failure? ==>
      exists k: nat :: FirstUnknownLink(n, edges, k) && r.error == UnknownNode(UnknownEnd(n, edges[k]))
    ensures r.Success? ==> r.value.Valid() && r.value.size == n
    ensures r.Success? ==> r.value.Contents() == Run(Initialize(n, edges), maxIterations)
  {
    var init := InitializeRoutingTable(n, edges);
    if init.Failure? {
      return init;
    }
    var table := RunRounds(init.value, maxIterations);
    r := Success(table);
  }
}
