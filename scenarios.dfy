/** Small graphs built with the mutators, with what the contracts alone say
    about them: the weighted triangle whose shortest A-C route goes through B,
    a node nobody can reach, an induced subgraph and re-adding a node. */
module Scenarios {
  import opened GraphStore
  import opened ShortestPath

  /** h is a feasible potential: along every arc r-t it rises by at most the
      weight of r-t. */
  ghost predicate Feasible(adj: map<Name, seq<Name>>, pesos: map<Edge, real>, h: map<Name, real>)
  {
    && (forall r :: r in adj ==> r in h)
    && forall r, t :: r in adj && t in adj[r] ==> t in h && h[t] <= h[r] + Weight(pesos, r, t)
  }

  /** A feasible potential bounds the cost of every walk from below by the rise
      from its first node to its last. */
  lemma {:induction false} PotentialBound(adj: map<Name, seq<Name>>, pesos: map<Edge, real>, h: map<Name, real>,
                                          p: seq<Name>)
    requires Feasible(adj, pesos, h) && IsWalk(adj, p)
    ensures p[0] in h && Last(p) in h && h[Last(p)] - h[p[0]] <= Cost(pesos, p)
    decreases |p|
  {
    if |p| >= 2 {
      var q := p[..|p| - 1];
      WalkInit(adj, pesos, p);
      PotentialBound(adj, pesos, h, q);
    }
  }

  /** Linking a-b, b-c and a-c, in that order, in a graph of three isolated
      nodes lists b, c at a; a, c at b; and b, a at c. */
  lemma TriangleLinks(a: Name, b: Name, c: Name)
    requires a != b && b != c && a != c
    ensures var m := Linked(Linked(Linked(map[a := [], b := [], c := []], a, b), b, c), a, c);
      m.Keys == {a, b, c} && m[a] == [b, c] && m[b] == [a, c] && m[c] == [b, a]
  {
    var m0 := map[a := [], b := [], c := []];
    var m1 := Linked(m0, a, b);
    assert m1[a] == [b] && m1[b] == [a] && m1[c] == [];
    var m2 := Linked(m1, b, c);
    assert m2[a] == [b] && m2[b] == [a, c] && m2[c] == [b];
  }

  lemma Names()
    ensures "A" != "B" && "B" != "C" && "A" != "C" && "D" != "A" && "D" != "B" && "D" != "C"
    ensures Key("A", "B") == ("A", "B") && Key("B", "C") == ("B", "C") && Key("A", "C") == ("A", "C")
  {
    assert "A"[0] != "B"[0] && "B"[0] != "C"[0] && "A"[0] != "C"[0];
    assert "D"[0] != "A"[0] && "D"[0] != "B"[0] && "D"[0] != "C"[0];
    assert Strings.Less("A", "B") && Strings.Less("B", "C") && Strings.Less("A", "C");
  }

  /** In the triangle a-b (1), b-c (2), a-c (5) the potential 0, 1, 3 is feasible. */
  lemma TriangleFeasible(adj: map<Name, seq<Name>>, pesos: map<Edge, real>, a: Name, b: Name, c: Name)
    requires a != b && b != c && a != c
    requires adj.Keys == {a, b, c} && adj[a] == [b, c] && adj[b] == [a, c] && adj[c] == [b, a]
    requires Weight(pesos, a, b) == 1.0 && Weight(pesos, b, c) == 2.0 && Weight(pesos, a, c) == 5.0
    ensures Feasible(adj, pesos, map[a := 0.0, b := 1.0, c := 3.0])
  {
    KeySymmetric(a, b);
    KeySymmetric(b, c);
    KeySymmetric(a, c);
  }

  /** The nodes A, B and C, unconnected. */
  method Corners() returns (g: Graph)
    ensures fresh(g) && g.Valid()
    ensures g.nodes.Keys == {"A", "B", "C"}
    ensures g.adjacencia == map["A" := [], "B" := [], "C" := []]
    ensures g.edges == {} && g.pesos == map[]
  {
    g := new Graph();
    g.AdicionarNo("A", None);
    g.AdicionarNo("B", None);
    g.AdicionarNo("C", None);
  }

  /** The triangle A-B (1), B-C (2), A-C (5). */
  method Triangle() returns (g: Graph)
    ensures fresh(g) && g.Valid()
    ensures g.nodes.Keys == g.adjacencia.Keys == {"A", "B", "C"}
    ensures g.adjacencia["A"] == ["B", "C"] && g.adjacencia["B"] == ["A", "C"] && g.adjacencia["C"] == ["B", "A"]
    ensures g.edges == {} + {("A", "B")} + {("B", "C")} + {("A", "C")}
    ensures g.pesos == map[][("A", "B") := 1.0][("B", "C") := 2.0][("A", "C") := 5.0]
  {
    g := Corners();
    Names();
    g.AdicionarAresta("A", "B", 1.0);
    g.AdicionarAresta("B", "C", 2.0);
    g.AdicionarAresta("A", "C", 5.0);
    TriangleLinks("A", "B", "C");
  }

  /** In that triangle the route a, b, c costs 3 and no route from a to c costs less. */
  lemma TriangleDistance(adj: map<Name, seq<Name>>, pesos: map<Edge, real>, a: Name, b: Name, c: Name)
    requires a != b && b != c && a != c
    requires adj.Keys == {a, b, c} && adj[a] == [b, c] && adj[b] == [a, c] && adj[c] == [b, a]
    requires Weight(pesos, a, b) == 1.0 && Weight(pesos, b, c) == 2.0 && Weight(pesos, a, c) == 5.0
    ensures IsPath(adj, [a, b, c], a, c) && Cost(pesos, [a, b, c]) == 3.0
    ensures forall p :: IsPath(adj, p, a, c) ==> 3.0 <= Cost(pesos, p)
  {
    var ab := [a, b];
    var via := ab + [c];
    assert ab[..1] == [a] && via[..2] == ab;
    assert b in adj[a] && c in adj[b];
    assert IsWalk(adj, [a]) && Cost(pesos, [a]) == 0.0;
    assert IsWalk(adj, ab) && Cost(pesos, ab) == 1.0;
    assert IsWalk(adj, via) && Cost(pesos, via) == Cost(pesos, ab) + Weight(pesos, b, c);
    assert via == [a, b, c];
    var h := map[a := 0.0, b := 1.0, c := 3.0];
    TriangleFeasible(adj, pesos, a, b, c);
    forall p | IsPath(adj, p, a, c) ensures 3.0 <= Cost(pesos, p) {
      PotentialBound(adj, pesos, h, p);
    }
  }

  /** In that triangle every arc weighs at least 1. */
  lemma TriangleArcs(adj: map<Name, seq<Name>>, pesos: map<Edge, real>, a: Name, b: Name, c: Name)
    requires a != b && b != c && a != c
    requires adj.Keys == {a, b, c} && adj[a] == [b, c] && adj[b] == [a, c] && adj[c] == [b, a]
    requires Weight(pesos, a, b) == 1.0 && Weight(pesos, b, c) == 2.0 && Weight(pesos, a, c) == 5.0
    ensures forall x, y :: x in adj && y in adj[x] ==> 1.0 <= Weight(pesos, x, y)
  {
    KeySymmetric(a, b);
    KeySymmetric(b, c);
    KeySymmetric(a, c);
  }

  /** A walk of two or more nodes in that triangle costs at least 1. */
  lemma TriangleNonTrivial(adj: map<Name, seq<Name>>, pesos: map<Edge, real>, p: seq<Name>)
    requires forall x, y :: x in adj && y in adj[x] ==> 1.0 <= Weight(pesos, x, y)
    requires IsWalk(adj, p) && |p| >= 2
    ensures 1.0 <= Cost(pesos, p)
  {
    var q := p[..|p| - 1];
    WalkInit(adj, pesos, p);
    CostNonNegativeArcs(adj, pesos, q);
  }

  /** With every arc weighing at least 1, every walk costs at least 0. */
  lemma {:induction false} CostNonNegativeArcs(adj: map<Name, seq<Name>>, pesos: map<Edge, real>, p: seq<Name>)
    requires forall x, y :: x in adj && y in adj[x] ==> 1.0 <= Weight(pesos, x, y)
    requires IsWalk(adj, p)
    ensures 0.0 <= Cost(pesos, p)
    decreases |p|
  {
    if |p| >= 2 {
      WalkInit(adj, pesos, p);
      CostNonNegativeArcs(adj, pesos, p[..|p| - 1]);
    }
  }

  /** The only route from a to c that costs at most 3 is a, b, c. */
  lemma TriangleUnique(adj: map<Name, seq<Name>>, pesos: map<Edge, real>, a: Name, b: Name, c: Name, p: seq<Name>)
    requires a != b && b != c && a != c
    requires adj.Keys == {a, b, c} && adj[a] == [b, c] && adj[b] == [a, c] && adj[c] == [b, a]
    requires Weight(pesos, a, b) == 1.0 && Weight(pesos, b, c) == 2.0 && Weight(pesos, a, c) == 5.0
    requires IsPath(adj, p, a, c) && Cost(pesos, p) <= 3.0
    ensures p == [a, b, c]
  {
    TriangleArcs(adj, pesos, a, b, c);
    KeySymmetric(b, c);
    KeySymmetric(a, b);
    var h := map[a := 0.0, b := 1.0, c := 3.0];
    TriangleFeasible(adj, pesos, a, b, c);
    // the last arc ends at c, so it leaves a or b
    var q := p[..|p| - 1];
    WalkInit(adj, pesos, p);
    CostNonNegativeArcs(adj, pesos, q);
    assert Last(q) == b;
    // q runs from a to b for at most 1; its last arc leaves a or c
    var q' := q[..|q| - 1];
    WalkInit(adj, pesos, q);
    PotentialBound(adj, pesos, h, q');
    assert Last(q') == a;
    if |q'| >= 2 {
      TriangleNonTrivial(adj, pesos, q');
    }
    assert q' == [a];
    assert q == q' + [b];
    assert p == q + [c];
  }

  lemma TriangleWeights(pesos: map<Edge, real>, ab: Edge, bc: Edge, ac: Edge)
    requires pesos == map[][ab := 1.0][bc := 2.0][ac := 5.0]
    ensures NonNegativeWeights(pesos)
  {
  }

  /** The cheapest route from A to C costs 3, through B, not 5 along A-C. */
  method ShortestThroughB() returns (custo: Dist, path: seq<Name>)
    ensures custo == Fin(3.0) && path == ["A", "B", "C"]
  {
    var g := Triangle();
    Names();
    TriangleWeights(g.pesos, ("A", "B"), ("B", "C"), ("A", "C"));
    custo, path := Dijkstra(g, "A", "C");
    TriangleDistance(g.adjacencia, g.pesos, "A", "B", "C");
    TriangleUnique(g.adjacencia, g.pesos, "A", "B", "C", path);
  }

  /** A walk that ends at a name no neighbour list holds is that name alone. */
  lemma Isolated(adj: map<Name, seq<Name>>, p: seq<Name>, t: Name)
    requires forall x :: x in adj ==> t !in adj[x]
    requires IsWalk(adj, p) && Last(p) == t
    ensures p == [t]
  {
    WalkAdjacent(adj, p);
  }

  /** In the triangle plus an isolated d, no neighbour list holds d. */
  lemma TriangleMissing(adj: map<Name, seq<Name>>, tri: map<Name, seq<Name>>, a: Name, b: Name, c: Name, d: Name)
    requires d != a && d != b && d != c
    requires tri.Keys == {a, b, c} && tri[a] == [b, c] && tri[b] == [a, c] && tri[c] == [b, a]
    requires adj == tri[d := []]
    ensures forall x :: x in adj ==> d !in adj[x]
  {
  }

  /** D, added after the triangle without edges, cannot be reached from A. */
  method Unreachable() returns (custo: Dist, path: seq<Name>)
    ensures custo == Inf && path == []
  {
    var g := Triangle();
    Names();
    ghost var tri := g.adjacencia;
    g.AdicionarNo("D", None);
    TriangleWeights(g.pesos, ("A", "B"), ("B", "C"), ("A", "C"));
    custo, path := Dijkstra(g, "A", "D");
    TriangleMissing(g.adjacencia, tri, "A", "B", "C", "D");
    if custo.Fin? {
      Isolated(g.adjacencia, path, "D");
    }
  }

  /** Tagging A with 7 and then re-adding it without a micro-region keeps the
      tag, and the node and edge counts. */
  method ReAdd() returns (g: Graph)
    ensures g.GetOrdem() == 3 && g.GetTamanho() == 3 && "A" in g.nodes && g.nodes["A"] == Some(7)
  {
    g := Triangle();
    Names();
    Triangle3(g.nodes.Keys, g.edges);
    assert |g.nodes| == 3;
    g.AdicionarNo("A", Some(7));
    g.AdicionarNo("A", None);
  }

  /** Adding A-B again, as B-A with weight 4, keeps three edges and rewrites the weight. */
  method ReLink() returns (g: Graph)
    ensures g.GetTamanho() == 3 && g.GetPeso("A", "B") == 4.0 && g.GetPeso("B", "A") == 4.0
    ensures g.GetVizinhos("A") == ["B", "C"] && g.GetVizinhos("B") == ["A", "C"]
  {
    g := Triangle();
    Names();
    Triangle3(g.nodes.Keys, g.edges);
    g.AdicionarAresta("B", "A", 4.0);
    KeySymmetric("A", "B");
  }

  /** The triangle has three nodes and three edges, hence density 1. */
  lemma Triangle3(nodes: set<Name>, edges: set<Edge>)
    requires "A" != "B" && "B" != "C" && "A" != "C"
    requires nodes == {"A", "B", "C"} && edges == {} + {("A", "B")} + {("B", "C")} + {("A", "C")}
    ensures |nodes| == 3 && |edges| == 3
  {
  }

  method Density() returns (d: real)
    ensures d == 1.0
  {
    var g := Triangle();
    Names();
    Triangle3(g.nodes.Keys, g.edges);
    assert g.GetOrdem() == 3 && g.GetTamanho() == 3 && Pairs(3) == 6;
    d := g.GetDensidade();
  }

  /** The subgraph induced by A and B keeps their one edge and its weight. */
  method SubgraphAB() returns (h: Graph)
    ensures h.nodes.Keys == {"A", "B"} && h.edges == {("A", "B")} && h.GetPeso("A", "B") == 1.0
  {
    var g := Triangle();
    Names();
    h := g.CriarSubgrafoInduzido(["A", "B"]);
    assert ("A", "B") in g.edges;
  }
}
