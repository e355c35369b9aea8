/** The four-node example network of DistanceVectorRoutingMain.py, with
    nodes A, B, C, D numbered 0 .. 3. */
module DemoNetwork {
  import opened Costs
  import opened RoutingTables
  import opened DistanceVector

  function DemoEdges(): seq<Edge>
  {
    [Edge(0, 1, 1), Edge(1, 2, 2), Edge(0, 2, 4), Edge(2, 3, 1)]
  }

  function E(c: nat, hop: nat): Entry { Entry(Fin(c), Some(hop)) }

  function T0(): Table
  {
    [ [E(0, 0), E(1, 1), E(4, 2), Unreachable()],
      [E(1, 0), E(0, 1), E(2, 2), Unreachable()],
      [E(4, 0), E(2, 1), E(0, 2), E(1, 3)],
      [Unreachable(), Unreachable(), E(1, 2), E(0, 3)] ]
  }

  function T1(): Table
  {
    [ [E(0, 0), E(1, 1), E(3, 1), E(5, 2)],
      [E(1, 0), E(0, 1), E(2, 2), E(3, 2)],
      [E(3, 1), E(2, 1), E(0, 2), E(1, 3)],
      [E(5, 2), E(3, 2), E(1, 2), E(0, 3)] ]
  }

  function T2(): Table
  {
    [ [E(0, 0), E(1, 1), E(3, 1), E(4, 1)],
      [E(1, 0), E(0, 1), E(2, 2), E(3, 2)],
      [E(3, 1), E(2, 1), E(0, 2), E(1, 3)],
      [E(4, 2), E(3, 2), E(1, 2), E(0, 3)] ]
  }

  /** The store of the example network after its first k links. */
  function Linked0(): Table
  {
    var U := Unreachable();
    [ [E(0, 0), U, U, U],
      [U, E(0, 1), U, U],
      [U, U, E(0, 2), U],
      [U, U, U, E(0, 3)] ]
  }

  function Linked1(): Table
  {
    var U := Unreachable();
    [ [E(0, 0), E(1, 1), U, U],
      [E(1, 0), E(0, 1), U, U],
      [U, U, E(0, 2), U],
      [U, U, U, E(0, 3)] ]
  }

  function Linked2(): Table
  {
    var U := Unreachable();
    [ [E(0, 0), E(1, 1), U, U],
      [E(1, 0), E(0, 1), E(2, 2), U],
      [U, E(2, 1), E(0, 2), U],
      [U, U, U, E(0, 3)] ]
  }

  function Linked3(): Table
  {
    var U := Unreachable();
    [ [E(0, 0), E(1, 1), E(4, 2), U],
      [E(1, 0), E(0, 1), E(2, 2), U],
      [E(4, 0), E(2, 1), E(0, 2), U],
      [U, U, U, E(0, 3)] ]
  }

  /** Applying link e to t gives u. */
  lemma SetEdgeGives(t: Table, e: Edge, u: Table)
    requires IsTable(t) && e.a < |t| && e.b < |t| && IsTable(u) && |u| == |t|
    requires forall i, j :: 0 <= i < |t| && 0 <= j < |t| ==>
      u[i][j] == if Joins(e, i, j) then Entry(Fin(e.cost), Some(j)) else t[i][j]
    ensures SetEdge(t, e) == u
  {
    forall i, j | 0 <= i < |t| && 0 <= j < |t|
      ensures SetEdge(t, e)[i][j] == u[i][j]
    {
      var r := SetEdge(t, e);
      assert r[i][j] == if Joins(e, i, j) then Entry(Fin(e.cost), Some(j)) else t[i][j];
      assert u[i][j] == if Joins(e, i, j) then Entry(Fin(e.cost), Some(j)) else t[i][j];
    }
    SameEntries(SetEdge(t, e), u);
  }

  lemma BlankFour()
    ensures Blank(4) == Linked0()
  {
    var b := Blank(4);
    var u := Linked0();
    forall i, j | 0 <= i < 4 && 0 <= j < 4
      ensures b[i][j] == u[i][j]
    {
      assert b[i][j] == if i == j then SelfEntry(i) else Unreachable();
    }
    SameEntries(b, u);
  }

  lemma InitialDemo()
    ensures Initialize(4, DemoEdges()) == T0()
  {
    var es := DemoEdges();
    var b := Blank(4);
    assert es[..3][..2][..1][..0] == [];
    var t1 := SetEdge(b, es[0]);
    var t2 := SetEdge(t1, es[1]);
    var t3 := SetEdge(t2, es[2]);
    var t4 := SetEdge(t3, es[3]);
    assert ApplyEdges(b, es[..3][..2][..1]) == t1;
    assert ApplyEdges(b, es[..3][..2]) == t2;
    assert ApplyEdges(b, es[..3]) == t3;
    assert ApplyEdges(b, es) == t4;
    BlankFour();
    FirstLinks();
    LastLinks();
  }

  lemma FirstLinks()
    ensures SetEdge(SetEdge(Linked0(), DemoEdges()[0]), DemoEdges()[1]) == Linked2()
  {
    SetEdgeGives(Linked0(), DemoEdges()[0], Linked1());
    SetEdgeGives(Linked1(), DemoEdges()[1], Linked2());
  }

  lemma LastLinks()
    ensures SetEdge(SetEdge(Linked2(), DemoEdges()[2]), DemoEdges()[3]) == T0()
  {
    SetEdgeGives(Linked2(), DemoEdges()[2], Linked3());
    SetEdgeGives(Linked3(), DemoEdges()[3], T0());
  }

  /** Entry (i, j) after one round on a four-node store, unrolled over the
      four neighbours: the last improving neighbour wins. */
  function Unrolled(t: Table, i: nat, j: nat): Entry
    requires IsTable(t) && |t| == 4 && i < 4 && j < 4
  {
    if Improves(t, i, 3, j) then Entry(Candidate(t, i, 3, j), t[i][3].nextHop)
    else if Improves(t, i, 2, j) then Entry(Candidate(t, i, 2, j), t[i][2].nextHop)
    else if Improves(t, i, 1, j) then Entry(Candidate(t, i, 1, j), t[i][1].nextHop)
    else if Improves(t, i, 0, j) then Entry(Candidate(t, i, 0, j), t[i][0].nextHop)
    else t[i][j]
  }

  function UnrolledRow(t: Table, i: nat): seq<Entry>
    requires IsTable(t) && |t| == 4 && i < 4
  {
    [Unrolled(t, i, 0), Unrolled(t, i, 1), Unrolled(t, i, 2), Unrolled(t, i, 3)]
  }

  lemma RoundOfFour(t: Table)
    requires IsTable(t) && |t| == 4
    ensures Round(t) == [UnrolledRow(t, 0), UnrolledRow(t, 1), UnrolledRow(t, 2), UnrolledRow(t, 3)]
  {
    var u := [UnrolledRow(t, 0), UnrolledRow(t, 1), UnrolledRow(t, 2), UnrolledRow(t, 3)];
    forall i, j | 0 <= i < 4 && 0 <= j < 4
      ensures Round(t)[i][j] == u[i][j]
    {
      RelaxedOfFour(t, i, j);
    }
    SameEntries(Round(t), u);
  }

  lemma RelaxedOfFour(t: Table, i: nat, j: nat)
    requires IsTable(t) && |t| == 4 && i < 4 && j < 4
    ensures Relaxed(t, i, j, 4) == Unrolled(t, i, j)
  {
    assert Relaxed(t, i, j, 1) == if Improves(t, i, 0, j) then Entry(Candidate(t, i, 0, j), t[i][0].nextHop) else t[i][j];
    assert Relaxed(t, i, j, 2) == if Improves(t, i, 1, j) then Entry(Candidate(t, i, 1, j), t[i][1].nextHop) else Relaxed(t, i, j, 1);
    assert Relaxed(t, i, j, 3) == if Improves(t, i, 2, j) then Entry(Candidate(t, i, 2, j), t[i][2].nextHop) else Relaxed(t, i, j, 2);
  }

  lemma FirstRound()
    ensures Round(T0()) == T1()
  {
    RoundOfFour(T0());
  }

  lemma SecondRound()
    ensures Round(T1()) == T2()
  {
    RoundOfFour(T1());
  }

  lemma ThirdRoundChangesNothing()
    ensures Round(T2()) == T2()
  {
    RoundOfFour(T2());
  }

  /** The example network converges after two updating rounds: A reaches C
      at cost 3 and D at cost 4, both through B. */
  lemma DemoRun()
    ensures Run(Initialize(4, DemoEdges()), 10) == T2()
    ensures UpdatingRounds(Initialize(4, DemoEdges()), 10) == 2
    ensures Run(Initialize(4, DemoEdges()), 10)[0][2] == Entry(Fin(3), Some(1))
    ensures Run(Initialize(4, DemoEdges()), 10)[0][3] == Entry(Fin(4), Some(1))
  {
    InitialDemo();
    FirstRound();
    SecondRound();
    ThirdRoundChangesNothing();
    RoundChangesIffImprovable(T0());
    RoundChangesIffImprovable(T1());
    RoundChangesIffImprovable(T2());
    assert T0()[0][2] != T1()[0][2];
    assert T1()[0][3] != T2()[0][3];
  }

  /** A network in which A reaches D through B at cost 2 or through C at
      cost 6. */
  function TwoRoutesEdges(): seq<Edge>
  {
    [Edge(0, 1, 1), Edge(0, 2, 1), Edge(1, 3, 1), Edge(2, 3, 5)]
  }

  /** Its store after the first two links, and after the first three. */
  function Routes2(): Table
  {
    var U := Unreachable();
    [ [E(0, 0), E(1, 1), E(1, 2), U],
      [E(1, 0), E(0, 1), U, U],
      [E(1, 0), U, E(0, 2), U],
      [U, U, U, E(0, 3)] ]
  }

  function Routes3(): Table
  {
    var U := Unreachable();
    [ [E(0, 0), E(1, 1), E(1, 2), U],
      [E(1, 0), E(0, 1), U, E(1, 3)],
      [E(1, 0), U, E(0, 2), U],
      [U, E(1, 1), U, E(0, 3)] ]
  }

  /** The initial store of that network: A knows neither route to D yet. */
  function TwoRoutes(): Table
  {
    var U := Unreachable();
    [ [E(0, 0), E(1, 1), E(1, 2), U],
      [E(1, 0), E(0, 1), U, E(1, 3)],
      [E(1, 0), U, E(0, 2), E(5, 3)],
      [U, E(1, 1), E(5, 2), E(0, 3)] ]
  }

  lemma TwoRoutesInitial()
    ensures Initialize(4, TwoRoutesEdges()) == TwoRoutes()
  {
    var es := TwoRoutesEdges();
    var b := Blank(4);
    assert es[..3][..2][..1][..0] == [];
    var t1 := SetEdge(b, es[0]);
    var t2 := SetEdge(t1, es[1]);
    var t3 := SetEdge(t2, es[2]);
    var t4 := SetEdge(t3, es[3]);
    assert ApplyEdges(b, es[..3][..2][..1]) == t1;
    assert ApplyEdges(b, es[..3][..2]) == t2;
    assert ApplyEdges(b, es[..3]) == t3;
    assert ApplyEdges(b, es) == t4;
    BlankFour();
    FirstRouteLinks();
    LastRouteLinks();
  }

  lemma FirstRouteLinks()
    ensures SetEdge(SetEdge(Linked0(), TwoRoutesEdges()[0]), TwoRoutesEdges()[1]) == Routes2()
  {
    SetEdgeGives(Linked0(), TwoRoutesEdges()[0], Linked1());
    SetEdgeGives(Linked1(), TwoRoutesEdges()[1], Routes2());
  }

  lemma LastRouteLinks()
    ensures SetEdge(SetEdge(Routes2(), TwoRoutesEdges()[2]), TwoRoutesEdges()[3]) == TwoRoutes()
  {
    SetEdgeGives(Routes2(), TwoRoutesEdges()[2], Routes3());
    SetEdgeGives(Routes3(), TwoRoutesEdges()[3], TwoRoutes());
  }

  /** Within one round the last improving neighbour wins, not the cheapest:
      going through B would cost 2, yet the round records cost 6 through C,
      because C comes after B in node order and 6 is still below the
      pre-round cost. */
  lemma LastImproverNotCheapest()
    ensures Improves(TwoRoutes(), 0, 1, 3) && Candidate(TwoRoutes(), 0, 1, 3) == Fin(2)
    ensures Round(TwoRoutes())[0][3] == Entry(Fin(6), Some(2))
    ensures Round(Initialize(4, TwoRoutesEdges()))[0][3] == Entry(Fin(6), Some(2))
  {
    TwoRoutesInitial();
    var t := TwoRoutes();
    assert Improves(t, 0, 2, 3);
    assert !Improves(t, 0, 3, 3);
    RoundEntry(t, 0, 3);
  }
}
