# Distance-vector routing, modelled in Dafny

This project models `DistanceVectorRoutingMain.py`, a simulation of synchronous
distance-vector routing. That is a bounded Bellman-Ford relaxation over the
routing tables of every node of a network.

- **Nodes** are numbered `0 .. n-1` in the order of the `nodes` list. That order is the iteration order of every loop.
- **Links** are `Edge(a, b, cost)` values with a non-negative integer cost.
- **Costs** are `Cost = Fin(nat) | Inf` (module `Costs`). `Inf` takes the place of `float('inf')`:
  - an unreachable leg makes a path unreachable;
  - every finite cost is below `Inf`;
  - `Inf < Inf` is false.
- **Entries** are `Entry(cost, nextHop)`. A node's routing table is one row of a square store.
- **The store as a value** is `Table = seq<seq<Entry>>`.
- **The mutable store** is the class `RoutingTable`. It holds an `array2<Entry>` and exposes the value through the ghost view `Contents()`.

Module `RoutingTables` models `initialize_routing_table`:

- The constructor fills the blank store: `(0, itself)` on the diagonal and `(Inf, none)` elsewhere.
- `Link` writes one link in both directions.
- `InitializeRoutingTable` applies the links in list order.
- The value-level reference is `Initialize`. The lemmas about it show three things:
  - the last link naming a pair decides its entries;
  - without self-loops the diagonal is untouched;
  - direct links are symmetric.

Module `DistanceVector` models `distance_vector_routing`. Its specification functions are:

- `Relaxed`: one entry of one round. Neighbours are consulted in node order. Each one is compared with the store as it was before the round.
- `Round`: a whole round.
- `Run`: at most `maxIterations` rounds, stopping after the first round that updates nothing.

The imperative side mirrors the code's loops:

- `RelaxThrough`: the destination loop.
- `RelaxNode`: the neighbour loop.
- `RelaxAll`: the node loop, with the `updated` flag.
- `RelaxRound`: one round over a deep copy of the store.
- `RunRounds`: the round loop with its swap and its early `break`.
- `DistanceVectorRouting`: initialisation followed by the round loop.

Each method is proved against the matching specification function. The lemmas prove what the algorithm promises:

- costs never increase;
- a changed entry costs strictly less, and comes from a finite two-hop route whose first hop is inherited;
- self entries are kept;
- the next hop towards another node always names a node directly linked to the owner, and, when no link is a self-loop, a node's entry for itself stays (0, itself);
- costs stay symmetric: the cost from i to j equals the cost from j to i after every round, as it does after initialisation;
- a round changes the store exactly when some neighbour offers an improvement;
- finite costs only ever join nodes connected by a walk over the links, so nodes in different components stay unreachable from each other;
- the result of an early stop is a fixed point satisfying the triangle inequality.

Module `DemoNetwork` proves the outcome for the four-node example network at the end of the file. After two updating rounds, A reaches C at cost 3 and D at cost 4, both through B. It also shows, on the initial store of a second small network, that within one round the last improving neighbour wins, not the cheapest.

The model follows the code in these points:

- `distance_vector_routing` returns only the table. There is no iteration count and no converged flag. `RunOutcome` and `UpdatingRounds` characterise both as facts about the result instead.
- When several neighbours improve the same entry in one round, the LAST one in node order wins. Each is compared with the pre-round cost, so the winner is not necessarily the cheapest candidate. There is no first-wins tie-break.
- A link naming a node that is not in the network is not rejected up front. The code raises a lookup error while applying the links. The model returns `Failure(UnknownNode(..))` naming the first unknown endpoint met.
- Self-loop links are not rejected. They overwrite the node's own entry, and the model does the same. The self-entry lemmas assume there are none.
- An empty network needs no special case. With `n == 0` every loop is empty and the empty store is returned.
- A non-positive round budget runs no round.

## Model

| member | source | states |
|---|---|---|
| Costs.Add | DistanceVectorRoutingMain.py:66 | a two-leg path cost is unreachable exactly when one leg is, and is never below either leg |
| RoutingTables.RoutingTable.constructor | DistanceVectorRoutingMain.py:10-14 | the new store is total over the n nodes: (0, itself) for each node's own entry, (Inf, none) for every other |
| RoutingTables.RoutingTable.Link | DistanceVectorRoutingMain.py:18-20 | a link (a, b, c) sets entry (a, b) to (c, b) and entry (b, a) to (c, a); every other entry is unchanged |
| RoutingTables.RoutingTable.Clone | DistanceVectorRoutingMain.py:52 | the copy is a fresh store in a fresh array with exactly the same entries |
| RoutingTables.InitializeRoutingTable | DistanceVectorRoutingMain.py:3-22 | fails exactly when some link names an unknown node, and then reports the endpoint whose lookup fails first (a before b) in the first such link; otherwise returns a fresh store equal to the blank store with every link applied in list order |
| RoutingTables.Blank | DistanceVectorRoutingMain.py:10-14 | the store before any link: n rows of n entries, (0, itself) on the diagonal and (Inf, none) everywhere else |
| RoutingTables.SetEdge | DistanceVectorRoutingMain.py:18-20 | applying link (a, b, c) makes every entry joined by the link (c, destination) in both directions and leaves every other entry as it was |
| RoutingTables.ApplyEdges | DistanceVectorRoutingMain.py:16-20 | applying links in list order keeps the store square; its entries are given by ApplyEdgesEntry |
| RoutingTables.ApplyEdgesEntry | DistanceVectorRoutingMain.py:16-20 | after applying a list of links, entry (i, j) is (c, j) for the last link joining i and j, and the entry from before when no link joins them |
| RoutingTables.Initialize | DistanceVectorRoutingMain.py:10-20 | the initial table has one row of n entries for each of the n nodes |
| RoutingTables.LastJoining | DistanceVectorRoutingMain.py:16-20 | finds the last link joining a pair, in either orientation; it finds none exactly when no link joins them |
| RoutingTables.InitialEntry | DistanceVectorRoutingMain.py:16-20 | an initial entry (i, j) is (c, j) for the cost c of the last link joining i and j, whichever way round the link names them; with no such link it is the blank entry |
| RoutingTables.InitialSelfEntries | DistanceVectorRoutingMain.py:10-20 | with no self-loop link, every node's own entry is (0, itself) after initialisation |
| RoutingTables.InitialSymmetric | DistanceVectorRoutingMain.py:16-20 | initial costs are symmetric; for i != j, an entry is unreachable exactly when no link joins i and j, and a linked node is reached through itself |
| DistanceVector.Candidate | DistanceVectorRoutingMain.py:66 | the cost through a neighbour is finite exactly when both legs are, and is never below either leg |
| DistanceVector.Improves | DistanceVectorRoutingMain.py:57-67 | the guards of the triple loop: the neighbour is not the node itself and is at finite cost, the destination is not the node, and the candidate is strictly below the pre-round cost; its consequences are stated by ImproverIsCloser |
| DistanceVector.ImproverIsCloser | DistanceVectorRoutingMain.py:57-67 | an improving neighbour is at finite cost and has a finite route to the destination, and each leg alone is already cheaper than the node's pre-round entry |
| DistanceVector.Relaxed | DistanceVectorRoutingMain.py:55-70 | one entry after consulting the neighbours in node order, each against the pre-round store; it never costs more than the pre-round entry |
| DistanceVector.Round | DistanceVectorRoutingMain.py:50-71 | a round keeps the store square over the same nodes |
| DistanceVector.Run | DistanceVectorRoutingMain.py:48-82 | a run keeps the store square over the same nodes |
| DistanceVector.RelaxedUnimproved | DistanceVectorRoutingMain.py:60-70 | with no improving neighbour among those consulted, the entry keeps its pre-round value |
| DistanceVector.RelaxedLastImprover | DistanceVectorRoutingMain.py:67-70 | the last improving neighbour consulted decides the entry: its candidate cost and the next hop the node uses towards it |
| DistanceVector.RelaxedBound | DistanceVectorRoutingMain.py:66-70 | a relaxed entry never costs more than before; if it changed it costs strictly less and was written by an improving neighbour |
| DistanceVector.RoundEntry | DistanceVectorRoutingMain.py:57-70 | after a round, an entry no neighbour improves is unchanged, and an improved entry holds the candidate and inherited next hop of the last improving neighbour |
| DistanceVector.RoundNeverIncreases | DistanceVectorRoutingMain.py:57-70 | a round never raises a cost; a changed entry costs strictly less and comes from a neighbour m != i with finite cost and a finite cost from m onwards, with i's next hop towards m |
| DistanceVector.RoundKeepsSelfEntry | DistanceVectorRoutingMain.py:60-63 | a round never touches a node's entry for itself |
| DistanceVector.RoundKeepsSelfEntries | DistanceVectorRoutingMain.py:60-63 | if every node has (0, itself) for itself before a round, it still does after |
| DistanceVector.RoundKeepsHops | DistanceVectorRoutingMain.py:57-70 | a round keeps two properties: "unreachable exactly when there is no next hop", and "every next hop towards another node is a node directly linked to the owner" |
| DistanceVector.RoundChangesIffImprovable | DistanceVectorRoutingMain.py:50-71 | a round changes the store if and only if some node has a neighbour offering a strictly cheaper route |
| DistanceVector.FixedPointTriangle | DistanceVectorRoutingMain.py:57-71 | in a store that a round leaves unchanged, for every node n, neighbour m != n at finite cost and destination d != n, cost(n, d) <= cost(n, m) + cost(m, d) |
| DistanceVector.InitialHops | DistanceVectorRoutingMain.py:10-20 | in the initial store (self-loops included) an entry is unreachable exactly when it has no next hop, and the next hop towards another node is a node directly linked to the owner |
| DistanceVector.InitialReach | DistanceVectorRoutingMain.py:10-20 | initially every finite entry joins a node to itself or to a directly linked node, so both ends are joined by a walk over the links |
| DistanceVector.RoundKeepsReach | DistanceVectorRoutingMain.py:57-70 | if every finite entry joins nodes connected by a walk before a round, the same holds after it |
| DistanceVector.RunOutcome | DistanceVectorRoutingMain.py:48-82 | a run does at most max(maxIterations, 0) updating rounds; every round before them updates; the result is the store after exactly those rounds; if the budget was not used up, no neighbour offers any improvement in the result |
| DistanceVector.RunNeverIncreases | DistanceVectorRoutingMain.py:48-82 | no cost in the result of a run exceeds the corresponding cost it started from |
| DistanceVector.RunKeepsSelfEntries | DistanceVectorRoutingMain.py:48-82 | self entries (0, itself) survive a whole run |
| DistanceVector.RunKeepsHops | DistanceVectorRoutingMain.py:48-82 | over a whole run, every next hop towards another node remains a node directly linked to the owner, and the next hop is none exactly for unreachable entries |
| DistanceVector.RunKeepsReach | DistanceVectorRoutingMain.py:48-82 | finite entries stay between nodes connected by a walk over a whole run |
| DistanceVector.DisconnectedStaysUnreachable | DistanceVectorRoutingMain.py:37-82 | for nodes i and j with no walk between them, the result of the run has entry (i, j) equal to (Inf, none), whatever the budget |
| DistanceVector.RoutedSelfEntries | DistanceVectorRoutingMain.py:37-82 | with no self-loop link, every node's own entry is (0, itself) in the result of the whole run |
| DistanceVector.ImprovesSymmetric | DistanceVectorRoutingMain.py:57-67 | with symmetric costs, neighbour m improves i's route to j exactly when it improves j's route to i, and both candidates cost the same |
| DistanceVector.RoundEntrySymmetric | DistanceVectorRoutingMain.py:55-70 | with symmetric costs before a round, entries (i, j) and (j, i) cost the same after it |
| DistanceVector.RoundKeepsCostSymmetry | DistanceVectorRoutingMain.py:50-71 | a round keeps every cost symmetric |
| DistanceVector.RunKeepsCostSymmetry | DistanceVectorRoutingMain.py:48-82 | every cost stays symmetric over a whole run |
| DistanceVector.RoutedCostsSymmetric | DistanceVectorRoutingMain.py:37-82 | in the result of the whole computation, the cost from i to j equals the cost from j to i for every pair of nodes |
| DistanceVector.ConvergedIsFixedPoint | DistanceVectorRoutingMain.py:74-82 | when the run stops early, one more round changes nothing and the result satisfies the triangle inequality |
| DistanceVector.RelaxThrough | DistanceVectorRoutingMain.py:60-71 | writes, in node's row of the next store, exactly the destinations for which going through nb is strictly cheaper than the pre-round cost; reports whether there was any |
| DistanceVector.RelaxNode | DistanceVectorRoutingMain.py:55-71 | node's row of the next store becomes its relaxed row, other rows are untouched, and the flag says whether any neighbour improved the row |
| DistanceVector.RelaxAll | DistanceVectorRoutingMain.py:50-71 | every row of the next store becomes the relaxed row of the pre-round store, and the flag is set exactly when some entry is improvable |
| DistanceVector.RelaxRound | DistanceVectorRoutingMain.py:50-74 | returns a fresh store equal to one round applied to the old one, and the flag is set exactly when some entry is improvable |
| DistanceVector.RunRounds | DistanceVectorRoutingMain.py:48-80 | the store returned after the round loop equals the bounded run from the store it was given: at most maxIterations rounds, stopping after the first round with no update |
| DistanceVector.DistanceVectorRouting | DistanceVectorRoutingMain.py:37-82 | fails exactly when a link names an unknown node, reporting the endpoint of the first such link whose lookup fails first; otherwise returns the store of n nodes equal to the bounded run from the initial store, with a budget of 10 rounds unless one is given |
| DemoNetwork.InitialDemo | DistanceVectorRoutingMain.py:86-92 | the initial store of the example network, entry by entry |
| DemoNetwork.DemoRun | DistanceVectorRoutingMain.py:84-95 | the example network with a budget of 10 stops after 2 updating rounds; A reaches C at cost 3 and D at cost 4, both through B |
| DemoNetwork.TwoRoutesInitial | DistanceVectorRoutingMain.py:10-20 | the network with links A-B 1, A-C 1, B-D 1, C-D 5 starts from a store in which A knows neither route to D |
| DemoNetwork.LastImproverNotCheapest | DistanceVectorRoutingMain.py:66-70 | in the first round of that network, B offers A cost 2 to D and the later neighbour C offers 6, and the round records 6 through C |

## Left out

- `print_routing_table` and the progress messages printed during the run are console output and are not modelled.
- The driver at the end of the file is not modelled as a program. Its network appears only as the proved example in `DemoNetwork`; its call relies on the default budget of 10, which is the default of `DistanceVector.DistanceVectorRouting`.
- Node names are replaced by their positions in the `nodes` list. Duplicate names, which the code would merge into one dictionary key, are not modelled.
- Floating-point costs are replaced by natural numbers and `Inf`. Negative and fractional link costs are excluded by the type.
- `copy.deepcopy` is modelled by `RoutingTable.Clone`, which copies every entry into a fresh array.
- The swap of dictionary references at the end of a round becomes a swap of `RoutingTable` objects. When a lookup error interrupts initialisation, the code returns nothing partial, and the model returns no store either.
- No bound on the number of rounds before the store stops changing is proved, for example the number of nodes. Within one round the last improving neighbour wins, not the cheapest, so the textbook Bellman-Ford argument does not carry over unchanged. The model states only what happens within the given budget.
