# Graph engine of the Recife neighbourhoods project, in Dafny

This project models the graph engine of the neighbourhoods analysis in Dafny:

- the `Graph` class of `src/graphs/graph.py`: an undirected, weighted graph of named nodes. Each node carries an optional micro-region. Neighbour lists are kept in insertion order. Edge keys are the sorted name pairs, and a weight dictionary uses those keys;
- the `dijkstra` function of `src/graphs/algorithms.py`: a lazy-deletion binary heap, stale entries skipped, an early stop at the destination, and path reconstruction along `prev`.

Verified properties:

- `Graph` keeps four invariants:
  - neighbour lists are symmetric and duplicate-free;
  - the edge set is exactly the keys of adjacent pairs;
  - exactly the edges carry a weight.
- Each mutator states its precise new state, so the invariants need no extra assumptions.
- Without self-loops:
  - the degrees add up to twice the number of edges (the handshake lemma);
  - no degree exceeds |V| - 1;
  - the density lies in [0, 1].
- The induced subgraph holds exactly the stored edges between two kept names, with their weights.
- `dijkstra`:
  - returns `(INF, [])` exactly when no route exists or an endpoint is unknown;
  - otherwise it returns a route along the neighbour lists, and the returned cost is that route's cost;
  - no route between the two names costs less.

Modules:

- `strings.dfy`, module `Strings`: Python's `<` on `str`, which is lexicographic by code point. `sorted((u, v))` and the `u < v` filter of the subgraph copy rely on it. The module proves it is a strict total order.
- `graph.dfy`, module `GraphStore`: the invariant predicates and the value-level lemmas, with `class Graph` over them. The fields `nodes`, `adjacencia`, `edges` and `pesos` are updated in place by `AdicionarNo` and `AdicionarAresta`. The queries are functions that read the object.
- `shortestpath.dfy`, module `ShortestPath`:
  - routes, and an immutable `Search` value describing the state of the search;
  - the invariant of the main loop and one lemma per step of the loop;
  - the imperative `Dijkstra`, split into its three phases: `Explorar` (the main loop), `Relaxar` (the `for v in G.get_vizinhos(u)` loop) and `Caminho` (the reconstruction loop).
- `scenarios.dfy`, module `Scenarios`: graphs built only through the mutators, with the answers their contracts force. These include the `A-B 1, B-C 2, A-C 5` triangle of `tests/test_dijkstra.py`, the unreachable node D, an induced subgraph, re-adding a node and re-adding an edge.

Values:

- Weights and costs are `real`.
- Python's `float("inf")` is the `Inf` case of `datatype Dist = Fin(value: real) | Inf`, so `nd < dist[v]` is `Below(nd, dist[v])`.
- The heap is a `multiset` of `(distance, name)` pairs. `heappop` takes an element that is minimal under tuple order (`IsMin`), so equal distances go to the smaller name, as `heapq` does.
- A node's `{"microrregiao": m}` record is collapsed to its single field, an `Option<int>`.

Where the code is stricter or looser than a textual description of it might suggest, the model follows the code:

- `adicionar_aresta` silently ignores an edge with an unknown endpoint (`src/graphs/graph.py:30-31`). It never creates nodes.
- Self-loops are accepted. `u` is appended once to its own list and `(u, u)` becomes an edge. The handshake, degree and density bounds are therefore stated for graphs without self-loops. The induced subgraph never contains one, because of the `u < v` filter.
- The tie-break between equal distances is not left open: heap entries are tuples, so the smaller name is popped first.

## Model

| member | source | states |
|---|---|---|
| Strings.Trichotomy | src/graphs/graph.py:36 | string `<` is total, asymmetric and irreflexive, so `sorted((u, v))` is well defined |
| Strings.Transitive | src/graphs/graph.py:84 | string `<` is transitive |
| Strings.LessEqTotal | src/graphs/graph.py:36 | `<=` on names is total and antisymmetric |
| GraphStore.Key | src/graphs/graph.py:36 | the key of u-v is the sorted pair: its first name is at most its second, and it is (u, v) or (v, u) |
| GraphStore.KeySymmetric | src/graphs/graph.py:36 | u-v and v-u are stored under the same key |
| GraphStore.Linked | src/graphs/graph.py:32-35 | the adjacency after both conditional appends: v is added to u's list and u to v's list, each unless already present; every other list is unchanged |
| GraphStore.LinkedNew | src/graphs/graph.py:32-38 | linking two nodes that are not adjacent appends to both lists, adds a key that was not stored, and keeps all four invariants |
| GraphStore.LinkedExisting | src/graphs/graph.py:32-38 | linking two adjacent nodes leaves lists and edges unchanged, rewrites only the weight, and keeps the invariants |
| GraphStore.NodeAdded | src/graphs/graph.py:20-22 | a new name with an empty list keeps the invariants |
| GraphStore.NodeRetagged | src/graphs/graph.py:25-26 | overwriting an existing node's micro-region keeps the invariants |
| GraphStore.Restrict | src/graphs/graph.py:76-79 | the copied node entries are exactly the listed names that are nodes, with their micro-regions |
| GraphStore.RowsMembers | src/graphs/graph.py:80-85 | the loop adds (u, v) exactly when u is a listed node, v is a kept neighbour of u, and u < v |
| GraphStore.InducedEdges | src/graphs/graph.py:80-86 | the copied edges are exactly the stored edges between two kept names, self-loops excepted |
| GraphStore.ArcsCount | src/graphs/graph.py:55-57 | without duplicate neighbours, the sum of the list lengths counts the directed adjacent pairs |
| GraphStore.ArcsSplit | src/graphs/graph.py:32-37 | the directed pairs are the edge keys plus their reverses, and the two overlap exactly on self-loops |
| GraphStore.DegreeSum | tests/test_passo4.py:22-26 | the degree sum plus the number of self-loops is 2 \|E\| |
| GraphStore.NoDupBound | src/graphs/graph.py:32-35 | a duplicate-free list drawn from a set is no longer than the set |
| GraphStore.TwiceEdgesBound | src/graphs/graph.py:72 | degrees of at most n - 1 that add up to 2E give 2E <= n (n - 1) |
| GraphStore.Graph.constructor | src/graphs/graph.py:11-16 | a new graph is empty in all four dictionaries and satisfies the invariants |
| GraphStore.Graph.AdicionarNo | src/graphs/graph.py:19-26 | a new name gets its micro-region and an empty list; an existing one keeps its list; its micro-region changes only for a non-None value; edges and weights are untouched; the order grows by one exactly for a new name |
| GraphStore.Graph.AdicionarAresta | src/graphs/graph.py:29-38 | unknown endpoint: nothing changes; otherwise the adjacency is `Linked`, the key joins the edge set and the weight is (re)written; a repeated edge changes neither lists nor edges; the size grows by one exactly for a new edge |
| GraphStore.Graph.GetPeso | src/graphs/graph.py:41-43 | between adjacent names: the weight stored under their canonical key, which is always present; between names that are not adjacent: 1.0 |
| GraphStore.Graph.GetPesoSymmetric | src/graphs/graph.py:41-43 | `get_peso(u, v) == get_peso(v, u)` |
| GraphStore.Graph.GetOrdem | src/graphs/graph.py:47-49 | the order equals the number of neighbour lists |
| GraphStore.Graph.GetTamanho | src/graphs/graph.py:51-53 | the size equals the number of stored weights |
| GraphStore.Graph.GetVizinhos | src/graphs/graph.py:59-61 | an unknown name has no neighbours; a list has no duplicates, and it holds only nodes that list the name back |
| GraphStore.Graph.GetGrau | src/graphs/graph.py:55-57 | the degree is the length of the neighbour list, 0 for an unknown name |
| GraphStore.Graph.GetDensidade | src/graphs/graph.py:63-72 | 0 with fewer than two nodes, never negative |
| GraphStore.Graph.Handshake | tests/test_passo4.py:22-26 | without self-loops the degrees add up to 2 \|E\| |
| GraphStore.Graph.DegreeBound | src/graphs/graph.py:55-57 | without self-loops a degree is at most \|V\| - 1 |
| GraphStore.Graph.EdgeCountBound | src/graphs/graph.py:51-53 | without self-loops 2 \|E\| <= \|V\| (\|V\| - 1) |
| GraphStore.Graph.DensidadeBounds | src/graphs/graph.py:63-72 | without self-loops the density lies in [0, 1] |
| GraphStore.Graph.CopiarNos | src/graphs/graph.py:76-79 | after the first loop the subgraph's nodes are the listed nodes with their micro-regions, and it has no edges |
| GraphStore.Graph.CopiarAresta | src/graphs/graph.py:84-85 | a kept neighbour v with u < v is linked to u in the subgraph with this graph's weight; any other neighbour adds nothing |
| GraphStore.Graph.CopiarVizinhos | src/graphs/graph.py:83-85 | the inner loop adds exactly the edges (u, v) for the kept neighbours v after u, each with its weight |
| GraphStore.Graph.CopiarArestas | src/graphs/graph.py:80-85 | after the second loop the subgraph holds exactly the edges the loops add, each with this graph's weight |
| GraphStore.Graph.CriarSubgrafoInduzido | src/graphs/graph.py:74-86 | a fresh valid graph without self-loops, whose nodes are the listed nodes with their micro-regions, whose edges are exactly the stored edges between two of them, with their weights; the original graph is not modified |
| ShortestPath.WalkAdjacent | src/graphs/algorithms.py:27 | a route is a sequence of nodes in which each next node is listed by `get_vizinhos` of the previous one (both directions) |
| ShortestPath.CostCons | src/graphs/algorithms.py:28-29 | the cost of a route extended at the front is the first weight plus the rest |
| ShortestPath.CostNonNegative | src/graphs/algorithms.py:7 | with non-negative weights every route costs at least 0 |
| ShortestPath.MinExists | src/graphs/algorithms.py:21 | a non-empty heap has a minimum under tuple order |
| ShortestPath.Init | src/graphs/algorithms.py:11-18 | the initial distances, predecessors and heap satisfy the loop invariant |
| ShortestPath.Cut | src/graphs/algorithms.py:20-33 | while some node is unsettled, every route from the origin to it costs at least the smallest entry in the heap |
| ShortestPath.PopStale | src/graphs/algorithms.py:21-23 | popping an out-of-date minimum and skipping it keeps the invariant |
| ShortestPath.PopFresh | src/graphs/algorithms.py:21-26 | a popped minimum carrying its node's distance settles the node: no route to it is cheaper |
| ShortestPath.RelaxUpdate | src/graphs/algorithms.py:28-33 | `nd < dist[v]`: setting `dist[v]`, `prev[v]` and pushing `(nd, v)` keeps the invariant, one more neighbour relaxed |
| ShortestPath.RelaxKeep | src/graphs/algorithms.py:28-30 | `nd >= dist[v]`: the neighbour is already relaxed |
| ShortestPath.Answer | src/graphs/algorithms.py:24-25 | once the destination is settled or the heap is empty, a finite distance is the cheapest route cost, and an infinite one means no route |
| ShortestPath.Back | src/graphs/algorithms.py:41-43 | one step back along `prev` extends the route behind it, carries the rest of the destination's distance, and descends in settling order |
| ShortestPath.ReversedIndex | src/graphs/algorithms.py:44 | element i of the reversal is element \|s\| - 1 - i |
| ShortestPath.Relaxar | src/graphs/algorithms.py:27-33 | after relaxing every neighbour of the settled node the main invariant holds again; entries are only pushed; every changed distance went down and took u as predecessor |
| ShortestPath.Explorar | src/graphs/algorithms.py:17-33 | after the main loop, a finite distance at the destination is at most the cost of every route to it, and an infinite one means there is no route |
| ShortestPath.Caminho | src/graphs/algorithms.py:38-44 | the rebuilt path runs from the origin to the destination along neighbour lists, and its cost is the destination's distance; it is `[origem]` when the two coincide |
| ShortestPath.Dijkstra | src/graphs/algorithms.py:3-45 | unknown endpoint: `(INF, [])`; `INF` exactly when no route exists, and then the path is empty; otherwise the path is a route from origin to destination whose cost is the returned cost, that cost is non-negative and no route is cheaper; the same name for origin and destination gives `(0.0, [origem])` |
| Scenarios.PotentialBound | src/graphs/algorithms.py:28-29 | a potential that rises by at most the weight along every adjacent pair bounds every route's cost from below |
| Scenarios.Triangle | src/graphs/graph.py:29-38 | inserting A-B, B-C and A-C into three isolated nodes gives lists `[B, C]`, `[A, C]`, `[B, A]`, three edge keys and their weights |
| Scenarios.TriangleUnique | tests/test_dijkstra.py:10 | in that triangle the only route from A to C costing at most 3 is A, B, C |
| Scenarios.ShortestThroughB | tests/test_dijkstra.py:9-18 | `dijkstra(G, "A", "C")` on the triangle returns cost 3 and the path `["A", "B", "C"]` |
| Scenarios.Unreachable | src/graphs/algorithms.py:35-36 | a node added without edges is unreachable: `(INF, [])` |
| Scenarios.ReAdd | src/graphs/graph.py:19-26 | re-adding a node without a micro-region keeps its earlier one and changes neither order nor size |
| Scenarios.ReLink | src/graphs/graph.py:29-38 | re-inserting B-A with weight 4 keeps three edges and the lists, and rewrites the weight read both ways |
| Scenarios.Density | src/graphs/graph.py:63-72 | the triangle has density 1 |
| Scenarios.SubgraphAB | src/graphs/graph.py:74-86 | the subgraph induced by A and B has those two nodes, the one edge A-B and its weight |

## Left out

- Reading the graph from CSV files (`src/graphs/io.py`), the reports and visualisations (`src/solve.py`, `src/viz.py`) and the BFS/DFS traversals are not part of this model.
- Floating point: weights, costs and the density are exact `real`s. `float(peso)` rounding, `inf` arithmetic, NaN weights and the rounding in `(2 * E) / (V * (V - 1))` are not modelled.
- ShortestPath.Dijkstra: requires a graph built by the mutators (`Valid`) and non-negative stored weights. The source assumes non-negative weights without checking them (`src/graphs/algorithms.py:7`). An arbitrary object with the same methods is not covered.
- ShortestPath.Dijkstra: when several routes have the same minimal cost, the contract does not say which one is returned, only that it is one of them. The heap order that decides it is modelled, but not stated as a property.
- "Settled" nodes, their settling order and the last popped distance are ghost book-keeping of the proof. The Python code keeps no such state.
- `heapq` is modelled as a multiset from which a minimal entry is removed. The array layout of the heap and its sift operations are not modelled.
- `path.append` followed by `path.reverse()` is modelled on a `seq`, with the reversal as a function. The in-place reversal of a Python list is not modelled.
- `get_vizinhos` returns the stored list itself, so a caller could change the graph through it. No caller in the core does, and the model returns a value.
- The `isinstance(self.nodes[n], dict)` guard of `src/graphs/graph.py:78` always holds for nodes created by `adicionar_no`, so the model has only that branch.
- `CopiarNos`, `CopiarArestas`, `CopiarVizinhos`, `CopiarAresta`, `Relaxar`, `Explorar` and `Caminho` are helper methods. Each holds one loop or loop body of `criar_subgrafo_induzido` or `dijkstra` with the same statements, so that each proof stays small.
- `tests/test_dijkstra.py:4-15` passes a stand-in object whose only attribute is `adj`, while `dijkstra` reads `G.nodes`, `G.get_vizinhos` and `G.get_peso`. `Scenarios.ShortestThroughB` builds the same triangle through `Graph` instead.
