/** The graph store: an undirected weighted graph kept as a node dictionary, an
    adjacency dictionary of neighbour lists, a set of canonical edge keys and a
    weight dictionary keyed by the same canonical pairs. */
module GraphStore {
  import Strings

  datatype Option<T> = None | Some(value: T)

  /** A node name (a neighbourhood). */
  type Name = string

  /** A canonical edge key: the pair `(min(u, v), max(u, v))`. */
  type Edge = (Name, Name)

  /** `tuple(sorted((u, v)))`: the key under which the edge u-v is stored. */
  function Key(u: Name, v: Name): (e: Edge)
    ensures Strings.LessEq(e.0, e.1)
    ensures (e.0 == u && e.1 == v) || (e.0 == v && e.1 == u)
  {
    Strings.Trichotomy(u, v);
    if Strings.LessEq(u, v) then (u, v) else (v, u)
  }

  /** (u, v) and (v, u) name the same edge. */
  lemma KeySymmetric(u: Name, v: Name)
    ensures Key(u, v) == Key(v, u)
  {
    Strings.Trichotomy(u, v);
  }

  /** `pesos.get(tuple(sorted((u, v))), 1.0)`: the weight stored for u-v, 1.0 if none. */
  function Weight(pesos: map<Edge, real>, u: Name, v: Name): real
  {
    var e := Key(u, v);
    if e in pesos then pesos[e] else 1.0
  }

  /** `adjacencia.get(x, [])`. */
  function Neighbours(adj: map<Name, seq<Name>>, x: Name): seq<Name>
  {
    if x in adj then adj[x] else []
  }

  /** The degree of x: the length of its neighbour list, 0 for an unknown name. */
  function Deg(adj: map<Name, seq<Name>>, x: Name): nat
  {
    |Neighbours(adj, x)|
  }

  /** A neighbour list after "append x unless already present". */
  function WithNeighbour(s: seq<Name>, x: Name): seq<Name>
  {
    if x in s then s else s + [x]
  }

  /** No name is listed twice: the last one is not among the others, and so on. */
  predicate NoDup(s: seq<Name>)
    decreases |s|
  {
    s == [] || (s[|s| - 1] !in s[..|s| - 1] && NoDup(s[..|s| - 1]))
  }

  /** The edge keys that are self-loops. */
  function SelfLoops(es: set<Edge>): set<Edge>
  {
    set e | e in es && e.0 == e.1
  }

  /** The sum of the degrees of the names in ns. */
  ghost function SumDegrees(adj: map<Name, seq<Name>>, ns: set<Name>): nat
    decreases ns
  {
    if ns == {} then 0
    else
      var x :| x in ns;
      Deg(adj, x) + SumDegrees(adj, ns - {x})
  }

  lemma {:induction false} SumDegreesRemove(adj: map<Name, seq<Name>>, ns: set<Name>, y: Name)
    requires y in ns
    ensures SumDegrees(adj, ns) == Deg(adj, y) + SumDegrees(adj, ns - {y})
    decreases ns
  {
    var x :| x in ns && SumDegrees(adj, ns) == Deg(adj, x) + SumDegrees(adj, ns - {x});
    if x != y {
      SumDegreesRemove(adj, ns - {x}, y);
      SumDegreesRemove(adj, ns - {y}, x);
      assert ns - {x} - {y} == ns - {y} - {x};
    }
  }

  /** If no degree exceeds b, the degree sum is at most |ns| * b. */
  lemma {:induction false} SumDegreesBound(adj: map<Name, seq<Name>>, ns: set<Name>, b: nat)
    requires forall x :: x in ns ==> Deg(adj, x) <= b
    ensures SumDegrees(adj, ns) <= |ns| * b
    decreases ns
  {
    if ns != {} {
      var x :| x in ns && SumDegrees(adj, ns) == Deg(adj, x) + SumDegrees(adj, ns - {x});
      SumDegreesBound(adj, ns - {x}, b);
      assert |ns - {x}| == |ns| - 1;
      assert (|ns| - 1) * b + b == |ns| * b;
    }
  }

  /** A list without duplicates drawn from S is no longer than S is large. */
  lemma {:induction false} NoDupBound(s: seq<Name>, S: set<Name>)
    requires NoDup(s)
    requires forall y :: y in s ==> y in S
    ensures |s| <= |S|
    decreases |s|
  {
    if s != [] {
      var x, t := s[|s| - 1], s[..|s| - 1];
      assert s == t + [x];
      NoDupBound(t, S - {x});
    }
  }


  /** Every node has a neighbour list and nothing else does; neighbours are
      nodes, and adjacency is symmetric. */
  ghost predicate Symmetric(nodes: map<Name, Option<int>>, adj: map<Name, seq<Name>>)
  {
    && adj.Keys == nodes.Keys
    && (forall u, v {:trigger v in adj[u]} :: u in adj && v in adj[u] ==> v in adj && u in adj[v])
  }

  /** No neighbour is listed twice. */
  ghost predicate DupFree(adj: map<Name, seq<Name>>)
  {
    forall u {:trigger NoDup(adj[u])} :: u in adj ==> NoDup(adj[u])
  }

  /** The edge set is exactly the canonical keys of adjacent pairs. */
  ghost predicate EdgesMatch(adj: map<Name, seq<Name>>, edges: set<Edge>)
  {
    && (forall e {:trigger e in edges} :: e in edges ==> e.0 in adj && e.1 in adj[e.0] && Strings.LessEq(e.0, e.1))
    && (forall u, v {:trigger v in adj[u]} :: u in adj && v in adj[u] && Strings.LessEq(u, v) ==> (u, v) in edges)
  }

  /** The invariants of a graph's four dictionaries; exactly the edges carry a weight. */
  ghost predicate WellFormed(nodes: map<Name, Option<int>>, adj: map<Name, seq<Name>>,
                             edges: set<Edge>, pesos: map<Edge, real>)
  {
    Symmetric(nodes, adj) && DupFree(adj) && EdgesMatch(adj, edges) && pesos.Keys == edges
  }

  /** A new name with an empty neighbour list keeps the invariants. */
  lemma NodeAdded(nodes: map<Name, Option<int>>, adj: map<Name, seq<Name>>,
                  edges: set<Edge>, pesos: map<Edge, real>, nome: Name, m: Option<int>)
    requires WellFormed(nodes, adj, edges, pesos) && nome !in nodes
    ensures WellFormed(nodes[nome := m], adj[nome := []], edges, pesos)
  {
    NodeAddedSymmetric(nodes, adj, nome, m);
    NodeAddedEdges(adj, edges, nome);
  }

  lemma NodeAddedSymmetric(nodes: map<Name, Option<int>>, adj: map<Name, seq<Name>>, nome: Name, m: Option<int>)
    requires Symmetric(nodes, adj) && nome !in nodes
    ensures Symmetric(nodes[nome := m], adj[nome := []])
  {
  }

  lemma NodeAddedEdges(adj: map<Name, seq<Name>>, edges: set<Edge>, nome: Name)
    requires EdgesMatch(adj, edges) && nome !in adj
    ensures EdgesMatch(adj[nome := []], edges)
  {
  }

  /** Changing the micro-region of an existing name keeps the invariants. */
  lemma NodeRetagged(nodes: map<Name, Option<int>>, adj: map<Name, seq<Name>>,
                     edges: set<Edge>, pesos: map<Edge, real>, nome: Name, m: Option<int>)
    requires WellFormed(nodes, adj, edges, pesos) && nome in nodes
    ensures WellFormed(nodes[nome := m], adj, edges, pesos)
  {
    assert nodes[nome := m].Keys == nodes.Keys;
  }

  /** Two adjacent names: their edge is already stored under its key. */
  lemma AdjacentHasKey(adj: map<Name, seq<Name>>, edges: set<Edge>, u: Name, v: Name)
    requires EdgesMatch(adj, edges) && u in adj && v in adj[u] && v in adj && u in adj[v]
    ensures Key(u, v) in edges
  {
  }

  /** The adjacency after `adicionar_aresta(u, v)`: v appended to u's list
      unless present, then u to v's list unless present. */
  function Linked(adj: map<Name, seq<Name>>, u: Name, v: Name): (r: map<Name, seq<Name>>)
    requires u in adj && v in adj
    ensures r.Keys == adj.Keys
    ensures r[u] == WithNeighbour(adj[u], v) && r[v] == WithNeighbour(adj[v], u)
    ensures forall x :: x in adj && x != u && x != v ==> r[x] == adj[x]
  {
    var a := adj[u := WithNeighbour(adj[u], v)];
    a[v := WithNeighbour(a[v], u)]
  }

  /** Linking two names that are already adjacent changes nothing. */
  lemma LinkedExisting(nodes: map<Name, Option<int>>, adj: map<Name, seq<Name>>, edges: set<Edge>,
                       pesos: map<Edge, real>, u: Name, v: Name, w: real)
    requires WellFormed(nodes, adj, edges, pesos) && u in nodes && v in nodes && v in adj[u]
    ensures Linked(adj, u, v) == adj && edges + {Key(u, v)} == edges
    ensures WellFormed(nodes, Linked(adj, u, v), edges + {Key(u, v)}, pesos[Key(u, v) := w])
  {
    AdjacentHasKey(adj, edges, u, v);
    LinkedUnchanged(adj, u, v);
    Reweighted(nodes, adj, edges, pesos, Key(u, v), w);
  }

  lemma LinkedUnchanged(adj: map<Name, seq<Name>>, u: Name, v: Name)
    requires u in adj && v in adj && v in adj[u] && u in adj[v]
    ensures Linked(adj, u, v) == adj
  {
  }

  /** A new weight on a stored edge keeps the invariants. */
  lemma Reweighted(nodes: map<Name, Option<int>>, adj: map<Name, seq<Name>>, edges: set<Edge>,
                   pesos: map<Edge, real>, e: Edge, w: real)
    requires WellFormed(nodes, adj, edges, pesos) && e in edges
    ensures WellFormed(nodes, adj, edges, pesos[e := w])
  {
    assert pesos[e := w].Keys == pesos.Keys;
  }

  /** Both appends of a new edge u-v (a single append when u == v). */
  function Joined(adj: map<Name, seq<Name>>, u: Name, v: Name): map<Name, seq<Name>>
    requires u in adj && v in adj
  {
    adj[u := adj[u] + [v]][v := adj[v] + [u]]
  }

  lemma JoinedSymmetric(nodes: map<Name, Option<int>>, adj: map<Name, seq<Name>>, u: Name, v: Name)
    requires Symmetric(nodes, adj) && u in adj && v in adj
    ensures Symmetric(nodes, Joined(adj, u, v))
  {
    var adj2 := Joined(adj, u, v);
    forall a, b | a in adj2 && b in adj2[a] ensures b in adj2 && a in adj2[b] {
      if (a == u && b == v) || (a == v && b == u) {
      } else {
        assert b in adj[a];
      }
    }
  }

  lemma JoinedDupFree(adj: map<Name, seq<Name>>, u: Name, v: Name)
    requires DupFree(adj) && u in adj && v in adj && v !in adj[u] && u !in adj[v]
    ensures DupFree(Joined(adj, u, v))
  {
    var adj2 := Joined(adj, u, v);
    forall x | x in adj2 ensures NoDup(adj2[x]) {
      if x == v {
        AppendFresh(adj[v], u);
      } else if x == u {
        AppendFresh(adj[u], v);
      }
    }
  }

  lemma JoinedEdges(adj: map<Name, seq<Name>>, edges: set<Edge>, u: Name, v: Name)
    requires EdgesMatch(adj, edges) && u in adj && v in adj
    ensures EdgesMatch(Joined(adj, u, v), edges + {Key(u, v)})
  {
    var adj2, e := Joined(adj, u, v), Key(u, v);
    KeySymmetric(u, v);
    forall a, b | a in adj2 && b in adj2[a] && Strings.LessEq(a, b) ensures (a, b) in edges + {e} {
      if (a == u && b == v) || (a == v && b == u) {
        Strings.LessEqTotal(a, b);
      } else {
        assert b in adj[a];
      }
    }
  }

  /** Linking two names that are not yet adjacent adds one edge and keeps the invariants. */
  lemma LinkedNew(nodes: map<Name, Option<int>>, adj: map<Name, seq<Name>>, edges: set<Edge>,
                  pesos: map<Edge, real>, u: Name, v: Name, w: real)
    requires WellFormed(nodes, adj, edges, pesos) && u in nodes && v in nodes && v !in adj[u]
    ensures u !in adj[v] && Key(u, v) !in edges
    ensures Linked(adj, u, v) == Joined(adj, u, v)
    ensures WellFormed(nodes, Linked(adj, u, v), edges + {Key(u, v)}, pesos[Key(u, v) := w])
  {
    assert Key(u, v) !in edges;
    JoinedSymmetric(nodes, adj, u, v);
    JoinedDupFree(adj, u, v);
    JoinedEdges(adj, edges, u, v);
  }

  lemma AppendFresh(s: seq<Name>, x: Name)
    requires NoDup(s) && x !in s
    ensures NoDup(s + [x])
  {
    assert (s + [x])[..|s|] == s;
  }


  /** A neighbour v of u with u < v: (u, v) is the stored key and has a weight. */
  lemma OrderedNeighbour(nodes: map<Name, Option<int>>, adj: map<Name, seq<Name>>, edges: set<Edge>,
                         pesos: map<Edge, real>, u: Name, v: Name)
    requires WellFormed(nodes, adj, edges, pesos) && u in nodes && v in adj[u]
    requires Strings.Less(u, v)
    ensures Key(u, v) == (u, v) && (u, v) in pesos
  {
  }

  /** The entries of m whose key is listed in s. */
  function Restrict(m: map<Name, Option<int>>, s: seq<Name>): (r: map<Name, Option<int>>)
    ensures forall n :: n in r <==> n in m && n in s
    ensures forall n :: n in r ==> r[n] == m[n]
  {
    map n | n in m && n in s :: m[n]
  }

  /** One more listed name: its entry, if any, is added. */
  lemma RestrictNext(m: map<Name, Option<int>>, s: seq<Name>, i: nat)
    requires i < |s|
    ensures s[i] !in m ==> Restrict(m, s[..i + 1]) == Restrict(m, s[..i])
    ensures s[i] in m ==> Restrict(m, s[..i + 1]) == Restrict(m, s[..i])[s[i] := m[s[i]]]
    ensures s[i] in Restrict(m, s[..i]) ==> Restrict(m, s[..i + 1]) == Restrict(m, s[..i])
  {
    assert s[..i + 1] == s[..i] + [s[i]];
  }

  /** The edges the inner loop of the induced-subgraph copy has added after the
      first j neighbours vs of u: (u, v) for each such v in kept with u < v. */
  ghost function Row(u: Name, vs: seq<Name>, j: nat, kept: set<Name>): set<Edge>
    requires j <= |vs|
  {
    if j == 0 then {} else Row(u, vs, j - 1, kept) + Copy(u, vs[j - 1], kept)
  }

  /** The edge copied for neighbour v of u: (u, v) when v is kept and u < v. */
  ghost function Copy(u: Name, v: Name, kept: set<Name>): set<Edge>
  {
    if v in kept && Strings.Less(u, v) then {(u, v)} else {}
  }

  /** The edges the outer loop has added after the first i listed names us. */
  ghost function Rows(adj: map<Name, seq<Name>>, us: seq<Name>, i: nat, kept: set<Name>): set<Edge>
    requires i <= |us|
  {
    if i == 0 then {}
    else Rows(adj, us, i - 1, kept) + (if us[i - 1] in adj then Row(us[i - 1], adj[us[i - 1]], |adj[us[i - 1]]|, kept) else {})
  }

  lemma {:induction false} RowMembers(u: Name, vs: seq<Name>, j: nat, kept: set<Name>)
    requires j <= |vs|
    ensures forall e :: e in Row(u, vs, j, kept) <==> e.0 == u && e.1 in vs[..j] && e.1 in kept && Strings.Less(u, e.1)
  {
    if j > 0 {
      RowMembers(u, vs, j - 1, kept);
      assert vs[..j] == vs[..j - 1] + [vs[j - 1]];
    }
  }

  /** An edge is copied exactly when its first endpoint is a listed node, its
      second is a kept neighbour of it, and the first is the smaller. */
  lemma {:induction false} RowsMembers(adj: map<Name, seq<Name>>, us: seq<Name>, i: nat, kept: set<Name>)
    requires i <= |us|
    ensures forall e :: e in Rows(adj, us, i, kept) <==>
      e.0 in us[..i] && e.0 in adj && e.1 in adj[e.0] && e.1 in kept && Strings.Less(e.0, e.1)
  {
    if i > 0 {
      var u := us[i - 1];
      RowsMembers(adj, us, i - 1, kept);
      if u in adj {
        RowMembers(u, adj[u], |adj[u]|, kept);
        assert adj[u][..|adj[u]|] == adj[u];
      }
      assert us[..i] == us[..i - 1] + [u];
    }
  }

  /** Every edge of es carries in ws the weight it has in pesos. */
  ghost predicate Weighted(es: set<Edge>, ws: map<Edge, real>, pesos: map<Edge, real>)
  {
    forall e :: e in es ==> e in ws && e in pesos && ws[e] == pesos[e]
  }

  /** After the outer loop over all of us, the copied edges are exactly the
      stored edges between two kept names, self-loops excepted. */
  lemma InducedEdges(nodes: map<Name, Option<int>>, adj: map<Name, seq<Name>>, edges: set<Edge>,
                     pesos: map<Edge, real>, us: seq<Name>, kept: set<Name>, copied: set<Edge>)
    requires WellFormed(nodes, adj, edges, pesos)
    requires kept == Restrict(nodes, us).Keys
    requires forall e :: e in copied <==> e in Rows(adj, us, |us|, kept)
    ensures forall e :: e in copied <==> e in edges && e.0 in kept && e.1 in kept && e.0 != e.1
  {
    RowsMembers(adj, us, |us|, kept);
    assert us[..|us|] == us;
    forall e ensures e in copied <==> e in edges && e.0 in kept && e.1 in kept && e.0 != e.1 {
      Strings.Trichotomy(e.0, e.1);
    }
  }

  /** One edge p copied with its weight w keeps every copied edge weighted. */
  lemma CopyStep(es: set<Edge>, ws: map<Edge, real>, pesos: map<Edge, real>, p: Edge, w: real)
    requires Weighted(es, ws, pesos)
    requires p in pesos && w == pesos[p]
    ensures Weighted(es + {p}, ws[p := w], pesos)
  {
  }

  /** The directed adjacency pairs: (u, v) whenever v is listed under u, u in ns. */
  ghost function Arcs(adj: map<Name, seq<Name>>, ns: set<Name>): set<Edge>
  {
    set u, v | u in ns && u in adj && v in adj[u] :: (u, v)
  }

  /** The pairs (x, v) for v listed in s. */
  ghost function Out(x: Name, s: seq<Name>): set<Edge>
  {
    set v | v in s :: (x, v)
  }

  lemma {:induction false} OutCount(x: Name, s: seq<Name>)
    requires NoDup(s)
    ensures |Out(x, s)| == |s|
    decreases |s|
  {
    if s != [] {
      var y, t := s[|s| - 1], s[..|s| - 1];
      assert s == t + [y];
      OutCount(x, t);
      assert Out(x, s) == Out(x, t) + {(x, y)};
    }
  }

  /** Without duplicate neighbours, the degree sum counts the directed pairs. */
  lemma {:induction false} ArcsCount(adj: map<Name, seq<Name>>, ns: set<Name>)
    requires DupFree(adj)
    ensures |Arcs(adj, ns)| == SumDegrees(adj, ns)
    decreases ns
  {
    if ns != {} {
      var x :| x in ns && SumDegrees(adj, ns) == Deg(adj, x) + SumDegrees(adj, ns - {x});
      ArcsCount(adj, ns - {x});
      var o := Out(x, Neighbours(adj, x));
      if x in adj {
        OutCount(x, adj[x]);
      } else {
        assert o == {};
      }
      assert |o| == Deg(adj, x);
      assert Arcs(adj, ns) == Arcs(adj, ns - {x}) + o;
      assert Arcs(adj, ns - {x}) * o == {};
    }
  }

  /** Each key read the other way round. */
  ghost function Flip(es: set<Edge>): set<Edge>
  {
    set e | e in es :: (e.1, e.0)
  }

  lemma {:induction false} FlipCount(es: set<Edge>)
    ensures |Flip(es)| == |es|
    decreases es
  {
    if es != {} {
      var e :| e in es;
      FlipCount(es - {e});
      assert Flip(es) == Flip(es - {e}) + {(e.1, e.0)};
    }
  }

  /** The directed pairs are the keys and their reverses, which overlap only on self-loops. */
  lemma ArcsSplit(nodes: map<Name, Option<int>>, adj: map<Name, seq<Name>>, edges: set<Edge>)
    requires Symmetric(nodes, adj) && EdgesMatch(adj, edges)
    ensures Arcs(adj, nodes.Keys) == edges + Flip(edges)
    ensures edges * Flip(edges) == SelfLoops(edges)
  {
    forall p | p in Arcs(adj, nodes.Keys) ensures p in edges + Flip(edges) {
      Strings.LessEqTotal(p.0, p.1);
      if !Strings.LessEq(p.0, p.1) {
        assert (p.1, p.0) in edges;
      }
    }
    forall p | p in edges + Flip(edges) ensures p in Arcs(adj, nodes.Keys) {
      if p !in edges {
        assert (p.1, p.0) in edges;
      }
    }
    forall p | p in edges * Flip(edges) ensures p.0 == p.1 {
      assert (p.1, p.0) in edges;
      Strings.LessEqTotal(p.0, p.1);
    }
    forall p | p in SelfLoops(edges) ensures p in Flip(edges) {
      assert p == (p.1, p.0);
    }
  }

  /** The degree sum of a well-formed graph: an ordinary edge adds 2, a self-loop 1. */
  lemma DegreeSum(nodes: map<Name, Option<int>>, adj: map<Name, seq<Name>>, edges: set<Edge>)
    requires Symmetric(nodes, adj) && DupFree(adj) && EdgesMatch(adj, edges)
    ensures SumDegrees(adj, nodes.Keys) + |SelfLoops(edges)| == 2 * |edges|
  {
    ArcsCount(adj, nodes.Keys);
    ArcsSplit(nodes, adj, edges);
    FlipCount(edges);
  }

  /** Degrees that add up to 2E and are each at most b give 2E <= |ns| * b. */
  lemma TwiceEdgesBound(adj: map<Name, seq<Name>>, ns: set<Name>, e: nat, n: nat)
    requires n >= 1 && |ns| == n
    requires forall x :: x in ns ==> Deg(adj, x) <= n - 1
    requires SumDegrees(adj, ns) == 2 * e
    ensures 2 * e <= Pairs(n)
  {
    SumDegreesBound(adj, ns, n - 1);
  }

  /** The number of ordered pairs of distinct elements of an n-element set. */
  function Pairs(n: nat): nat
  {
    if n == 0 then 0 else n * (n - 1)
  }

  lemma PairsPositive(n: nat)
    requires n >= 2
    ensures Pairs(n) >= 2
  {
    assert n * (n - 1) == n + n * (n - 2);
  }

  lemma RatioAtMostOne(a: nat, b: nat)
    requires a <= b && b > 0
    ensures 0.0 <= a as real / b as real <= 1.0
  {
    assert (a as real / b as real) * b as real == a as real;
  }

  /** The graph. `nodes` maps a name to its micro-region (the `{"microrregiao": ...}`
      record collapsed to its one field), `adjacencia` to its neighbour list in
      insertion order, `edges` holds canonical keys and `pesos` their weights. */
  class Graph {
    var nodes: map<Name, Option<int>>
    var adjacencia: map<Name, seq<Name>>
    var edges: set<Edge>
    var pesos: map<Edge, real>

    /** The invariants every graph built by the mutators keeps. */
    ghost predicate Valid()
      reads this
    {
      WellFormed(nodes, adjacencia, edges, pesos)
    }

    ghost predicate NoSelfLoops()
      reads this
    {
      forall e :: e in edges ==> e.0 != e.1
    }

    constructor ()
      ensures Valid()
      ensures nodes == map[] && adjacencia == map[] && edges == {} && pesos == map[]
    {
      nodes := map[];
      adjacencia := map[];
      edges := {};
      pesos := map[];
      assert SelfLoops({}) == {};
    }

    /** `adicionar_no`: a new name becomes an isolated node with the given
        micro-region; an existing one keeps its neighbours and has its
        micro-region overwritten only by a non-None value. */
    method AdicionarNo(nome: Name, microrregiao: Option<int>)
      requires Valid()
      modifies this
      ensures Valid()
      ensures nome !in old(nodes) ==>
        nodes == old(nodes)[nome := microrregiao] && adjacencia == old(adjacencia)[nome := []]
      ensures nome in old(nodes) ==>
        adjacencia == old(adjacencia) &&
        nodes == (if microrregiao.Some? then old(nodes)[nome := microrregiao] else old(nodes))
      ensures edges == old(edges) && pesos == old(pesos)
      ensures GetOrdem() == old(GetOrdem()) + (if nome in old(nodes) then 0 else 1)
    {
      if nome !in nodes {
        NodeAdded(nodes, adjacencia, edges, pesos, nome, microrregiao);
        nodes := nodes[nome := microrregiao];
        adjacencia := adjacencia[nome := []];
      } else if microrregiao.Some? {
        NodeRetagged(nodes, adjacencia, edges, pesos, nome, microrregiao);
        nodes := nodes[nome := microrregiao];
      }
    }

    /** `adicionar_aresta`: a silent no-op unless both endpoints are nodes;
        otherwise each endpoint is appended to the other's list unless already
        there, the canonical key joins the edge set and the weight is (re)written. */
    method AdicionarAresta(u: Name, v: Name, peso: real)
      requires Valid()
      modifies this
      ensures Valid()
      ensures u !in old(nodes) || v !in old(nodes) ==>
        nodes == old(nodes) && adjacencia == old(adjacencia) && edges == old(edges) && pesos == old(pesos)
      ensures u in old(nodes) && v in old(nodes) ==>
        && nodes == old(nodes)
        && adjacencia == Linked(old(adjacencia), u, v)
        && edges == old(edges) + {Key(u, v)}
        && pesos == old(pesos)[Key(u, v) := peso]
      ensures u in old(nodes) && v in old(nodes) && v in old(adjacencia)[u] ==>
        adjacencia == old(adjacencia) && edges == old(edges)
      ensures GetTamanho() ==
        old(GetTamanho()) + (if u in old(nodes) && v in old(nodes) && v !in old(adjacencia)[u] then 1 else 0)
    {
      if u !in nodes || v !in nodes {
        assert WellFormed(nodes, adjacencia, edges, pesos);
        return;
      }
      if v in adjacencia[u] {
        LinkedExisting(nodes, adjacencia, edges, pesos, u, v, peso);
      } else {
        LinkedNew(nodes, adjacencia, edges, pesos, u, v, peso);
      }
      KeySymmetric(u, v);
      adjacencia := Linked(adjacencia, u, v);
      var e := Key(u, v);
      edges := edges + {e};
      pesos := pesos[e := peso];
    }

    /** `get_peso`: the weight stored under the canonical key, 1.0 if none. */
    function GetPeso(u: Name, v: Name): (r: real)
      reads this
      ensures Valid() && v !in GetVizinhos(u) ==> r == 1.0
      ensures Valid() && v in GetVizinhos(u) ==> Key(u, v) in edges && r == pesos[Key(u, v)]
    {
      Weight(pesos, u, v)
    }

    /** `get_ordem`: |V|, which is also the number of neighbour lists. */
    function GetOrdem(): (r: nat)
      reads this
      ensures Valid() ==> r == |adjacencia|
    {
      |nodes|
    }

    /** `get_tamanho`: |E|, the number of distinct canonical edges, which is also
        the number of stored weights. */
    function GetTamanho(): (r: nat)
      reads this
      ensures Valid() ==> r == |pesos|
    {
      |edges|
    }

    /** `get_vizinhos`: the neighbour list, empty for an unknown name. */
    function GetVizinhos(no: Name): (r: seq<Name>)
      reads this
      ensures Valid() && no !in nodes ==> r == []
      ensures Valid() ==> NoDup(r) && forall x :: x in r ==> x in nodes && no in Neighbours(adjacencia, x)
    {
      Neighbours(adjacencia, no)
    }

    /** `get_grau`: the length of the neighbour list, 0 for an unknown name. */
    function GetGrau(no: Name): (r: nat)
      reads this
      ensures r == |GetVizinhos(no)|
      ensures Valid() && no !in nodes ==> r == 0
    {
      Deg(adjacencia, no)
    }

    /** `get_densidade`: 2E / (V (V - 1)), or 0 when there are fewer than two nodes. */
    function GetDensidade(): (r: real)
      reads this
      ensures GetOrdem() < 2 ==> r == 0.0
      ensures r >= 0.0
    {
      var V := GetOrdem();
      var E := GetTamanho();
      if V < 2 then 0.0
      else (2 * E) as real / Pairs(V) as real
    }

    /** The handshake lemma: without self-loops, the degrees add up to 2|E|. */
    lemma Handshake()
      requires Valid() && NoSelfLoops()
      ensures SumDegrees(adjacencia, nodes.Keys) == 2 * GetTamanho()
    {
      DegreeSum(nodes, adjacencia, edges);
      assert SelfLoops(edges) == {};
    }

    /** Without self-loops no node has more than |V| - 1 neighbours. */
    lemma DegreeBound(x: Name)
      requires Valid() && NoSelfLoops() && x in nodes
      ensures GetGrau(x) <= GetOrdem() - 1
    {
      assert Key(x, x) == (x, x);
      assert x !in adjacencia[x];
      NoDupBound(adjacencia[x], nodes.Keys - {x});
      assert |nodes.Keys - {x}| == |nodes.Keys| - 1;
    }

    /** Without self-loops a graph on V >= 1 nodes has at most V(V-1)/2 edges. */
    lemma EdgeCountBound()
      requires Valid() && NoSelfLoops() && GetOrdem() >= 1
      ensures 2 * GetTamanho() <= Pairs(GetOrdem())
    {
      AllDegreesBounded();
      Handshake();
      assert |nodes.Keys| == |nodes|;
      TwiceEdgesBound(adjacencia, nodes.Keys, GetTamanho(), GetOrdem());
    }

    lemma AllDegreesBounded()
      requires Valid() && NoSelfLoops()
      ensures forall x :: x in nodes.Keys ==> Deg(adjacencia, x) <= GetOrdem() - 1
    {
      forall x | x in nodes.Keys ensures Deg(adjacencia, x) <= GetOrdem() - 1 {
        DegreeBound(x);
      }
    }

    /** Without self-loops the density lies in [0, 1]. */
    lemma DensidadeBounds()
      requires Valid() && NoSelfLoops()
      ensures 0.0 <= GetDensidade() <= 1.0
    {
      var V := GetOrdem();
      if V >= 2 {
        EdgeCountBound();
        PairsPositive(V);
        RatioAtMostOne(2 * GetTamanho(), Pairs(V));
      }
    }

    /** `get_peso(u, v) == get_peso(v, u)`. */
    lemma GetPesoSymmetric(u: Name, v: Name)
      ensures GetPeso(u, v) == GetPeso(v, u)
    {
      KeySymmetric(u, v);
    }

    /** The body of the inner loop of `criar_subgrafo_induzido`: a neighbour v
        of u that is a node of h and comes after u is linked to u in h, with
        this graph's weight. */
    method CopiarAresta(h: Graph, u: Name, v: Name)
      requires Valid() && h.Valid() && h != this && u in nodes && u in h.nodes && v in adjacencia[u]
      requires Weighted(h.edges, h.pesos, pesos)
      modifies h
      ensures h.Valid() && h.nodes == old(h.nodes)
      ensures h.edges == old(h.edges) + Copy(u, v, h.nodes.Keys)
      ensures Weighted(h.edges, h.pesos, pesos)
    {
      if v in h.nodes && Strings.Less(u, v) {
        OrderedNeighbour(nodes, adjacencia, edges, pesos, u, v);
        ghost var e0, p0 := h.edges, h.pesos;
        var w := GetPeso(u, v);
        h.AdicionarAresta(u, v, w);
        CopyStep(e0, p0, pesos, (u, v), w);
      }
    }

    /** The inner loop of `criar_subgrafo_induzido` for one kept name u. */
    method CopiarVizinhos(h: Graph, u: Name)
      requires Valid() && h.Valid() && h != this && u in nodes && u in h.nodes
      requires Weighted(h.edges, h.pesos, pesos)
      modifies h
      ensures h.Valid() && h.nodes == old(h.nodes)
      ensures forall e :: e in h.edges <==> e in old(h.edges) || e in Row(u, adjacencia[u], |adjacencia[u]|, h.nodes.Keys)
      ensures Weighted(h.edges, h.pesos, pesos)
    {
      ghost var kept := h.nodes.Keys;
      ghost var edges0 := h.edges;
      var vizinhos := adjacencia[u];
      var j := 0;
      while j < |vizinhos|
        invariant 0 <= j <= |vizinhos|
        invariant h.Valid() && h.nodes == old(h.nodes)
        invariant forall e :: e in h.edges <==> e in edges0 || e in Row(u, vizinhos, j, kept)
        invariant Weighted(h.edges, h.pesos, pesos)
      {
        CopiarAresta(h, u, vizinhos[j]);
        j := j + 1;
      }
    }

    /** The first loop of `criar_subgrafo_induzido`: each listed name that is a
        node is added to h with its micro-region. */
    method CopiarNos(h: Graph, listaNos: seq<Name>)
      requires Valid() && h.Valid() && h != this && h.nodes == map[] && h.edges == {}
      modifies h
      ensures h.Valid() && h.nodes == Restrict(nodes, listaNos) && h.edges == {}
    {
      var i := 0;
      while i < |listaNos|
        invariant 0 <= i <= |listaNos|
        invariant h.Valid() && h.edges == {}
        invariant h.nodes == Restrict(nodes, listaNos[..i])
      {
        var n := listaNos[i];
        RestrictNext(nodes, listaNos, i);
        if n in nodes {
          h.AdicionarNo(n, nodes[n]);
        }
        i := i + 1;
      }
      assert listaNos[..i] == listaNos;
    }

    /** The second loop of `criar_subgrafo_induzido`: the neighbours of each
        listed node are copied into h. */
    method CopiarArestas(h: Graph, listaNos: seq<Name>)
      requires Valid() && h.Valid() && h != this && h.edges == {}
      requires forall n :: n in listaNos && n in nodes ==> n in h.nodes
      modifies h
      ensures h.Valid() && h.nodes == old(h.nodes)
      ensures forall e :: e in h.edges <==> e in Rows(adjacencia, listaNos, |listaNos|, h.nodes.Keys)
      ensures Weighted(h.edges, h.pesos, pesos)
    {
      ghost var sub := h.nodes;
      var i := 0;
      while i < |listaNos|
        invariant 0 <= i <= |listaNos|
        invariant h.Valid() && h.nodes == sub
        invariant forall e :: e in h.edges <==> e in Rows(adjacencia, listaNos, i, sub.Keys)
        invariant Weighted(h.edges, h.pesos, pesos)
      {
        var u := listaNos[i];
        if u in nodes {
          CopiarVizinhos(h, u);
        }
        i := i + 1;
      }
    }

    /** `criar_subgrafo_induzido`: a fresh graph on the listed names that are
        nodes, with their micro-regions, holding every edge between two of them
        except self-loops, with its weight; the graph itself is not modified. */
    method CriarSubgrafoInduzido(listaNos: seq<Name>) returns (h: Graph)
      requires Valid()
      ensures fresh(h) && h.Valid() && h.NoSelfLoops()
      ensures h.nodes == Restrict(nodes, listaNos)
      ensures forall e :: e in h.edges <==> e in edges && e.0 in h.nodes && e.1 in h.nodes && e.0 != e.1
      ensures Weighted(h.edges, h.pesos, pesos)
    {
      h := new Graph();
      CopiarNos(h, listaNos);
      CopiarArestas(h, listaNos);
      InducedEdges(nodes, adjacencia, edges, pesos, listaNos, h.nodes.Keys, h.edges);
    }
  }
}
