/** Single-pair shortest paths: `dijkstra(G, origem, destino)` over a graph of
    the graph store, with a lazily pruned priority queue, an early stop at the
    destination and a walk back along the predecessor links. */
module ShortestPath {
  import opened GraphStore
  import Strings

  /** A tentative distance: `float("inf")` is `Inf`. */
  datatype Dist = Fin(value: real) | Inf

  /** A queue entry `(d, u)`. */
  type Entry = (real, Name)

  /** `nd < dist[v]`, where every real is below infinity. */
  predicate Below(x: real, d: Dist)
  {
    d.Inf? || x < d.value
  }

  // ---------------------------------------------------------------------------
  // Walks and their cost

  function Last(p: seq<Name>): Name
    requires |p| >= 1
  {
    p[|p| - 1]
  }

  /** p is a non-empty sequence of nodes, each one listed as a neighbour of the one before. */
  predicate IsWalk(adj: map<Name, seq<Name>>, p: seq<Name>)
    decreases |p|
  {
    && |p| >= 1
    && p[|p| - 1] in adj
    && (|p| >= 2 ==> p[|p| - 2] in adj && p[|p| - 1] in adj[p[|p| - 2]] && IsWalk(adj, p[..|p| - 1]))
  }

  /** A walk from a to b. */
  predicate IsPath(adj: map<Name, seq<Name>>, p: seq<Name>, a: Name, b: Name)
  {
    IsWalk(adj, p) && p[0] == a && Last(p) == b
  }

  /** The sum of `get_peso` over the consecutive pairs of p. */
  function Cost(pesos: map<Edge, real>, p: seq<Name>): real
    requires |p| >= 1
    decreases |p|
  {
    if |p| == 1 then 0.0 else Cost(pesos, p[..|p| - 1]) + Weight(pesos, p[|p| - 2], p[|p| - 1])
  }

  /** A walk is exactly a sequence of nodes whose consecutive pairs are adjacent. */
  lemma {:induction false} WalkAdjacent(adj: map<Name, seq<Name>>, p: seq<Name>)
    requires |p| >= 1
    ensures IsWalk(adj, p) <==>
      (forall i :: 0 <= i < |p| ==> p[i] in adj) &&
      (forall i :: 0 <= i < |p| - 1 ==> p[i] in adj && p[i + 1] in adj[p[i]])
    decreases |p|
  {
    if |p| >= 2 {
      var q := p[..|p| - 1];
      WalkAdjacent(adj, q);
      assert forall i :: 0 <= i < |q| ==> q[i] == p[i];
    }
  }

  /** Prepending a node that has the walk's first node as a neighbour gives a walk. */
  lemma {:induction false} WalkCons(adj: map<Name, seq<Name>>, c: Name, p: seq<Name>)
    requires IsWalk(adj, p) && c in adj && p[0] in adj[c]
    ensures IsWalk(adj, [c] + p)
    decreases |p|
  {
    if |p| >= 2 {
      var q := p[..|p| - 1];
      WalkCons(adj, c, q);
      assert ([c] + p)[..|p|] == [c] + q;
    }
  }

  lemma {:induction false} CostCons(pesos: map<Edge, real>, c: Name, p: seq<Name>)
    requires |p| >= 1
    ensures Cost(pesos, [c] + p) == Weight(pesos, c, p[0]) + Cost(pesos, p)
    decreases |p|
  {
    if |p| >= 2 {
      var q := p[..|p| - 1];
      CostCons(pesos, c, q);
      assert ([c] + p)[..|p|] == [c] + q;
    }
  }

  /** The weights of a graph are non-negative, as `dijkstra` expects. */
  ghost predicate NonNegativeWeights(pesos: map<Edge, real>)
  {
    forall e :: e in pesos ==> 0.0 <= pesos[e]
  }

  lemma WeightNonNegative(pesos: map<Edge, real>, u: Name, v: Name)
    requires NonNegativeWeights(pesos)
    ensures 0.0 <= Weight(pesos, u, v)
  {
  }

  lemma {:induction false} CostNonNegative(pesos: map<Edge, real>, p: seq<Name>)
    requires NonNegativeWeights(pesos) && |p| >= 1
    ensures 0.0 <= Cost(pesos, p)
    decreases |p|
  {
    if |p| >= 2 {
      CostNonNegative(pesos, p[..|p| - 1]);
      WeightNonNegative(pesos, p[|p| - 2], p[|p| - 1]);
    }
  }

  /** Every neighbour is itself a key of the adjacency dictionary. */
  ghost predicate Closed(adj: map<Name, seq<Name>>)
  {
    forall u, v {:trigger v in adj[u]} :: u in adj && v in adj[u] ==> v in adj
  }

  lemma NeighbourIsNode(adj: map<Name, seq<Name>>, u: Name, j: nat)
    requires Closed(adj) && u in adj && j < |adj[u]|
    ensures adj[u][j] in adj
  {
    assert adj[u][j] in adj[u];
  }

  ghost predicate GraphOk(adj: map<Name, seq<Name>>, pesos: map<Edge, real>)
  {
    Closed(adj) && NonNegativeWeights(pesos)
  }

  // ---------------------------------------------------------------------------
  // The priority queue

  /** `heapq`'s order on `(d, u)` tuples: by distance, then by name. */
  predicate EntryLe(a: Entry, b: Entry)
  {
    a.0 < b.0 || (a.0 == b.0 && Strings.LessEq(a.1, b.1))
  }

  /** e is what `heapq.heappop` returns: a smallest entry of the queue. */
  predicate IsMin(e: Entry, pq: multiset<Entry>)
  {
    e in pq && forall q :: q in pq ==> EntryLe(e, q)
  }

  /** Every non-empty queue has a smallest entry. */
  lemma {:induction false} MinExists(pq: multiset<Entry>)
    requires |pq| > 0
    ensures exists e :: IsMin(e, pq)
    decreases |pq|
  {
    var x :| x in pq;
    var rest := pq - multiset{x};
    Strings.LessEqTotal(x.1, x.1);
    if |rest| == 0 {
      assert pq == multiset{x};
      forall q | q in pq ensures EntryLe(x, q) {
        assert q == x;
      }
      assert IsMin(x, pq);
    } else {
      MinExists(rest);
      var m :| IsMin(m, rest);
      if EntryLe(m, x) {
        assert IsMin(m, pq);
      } else {
        Strings.LessEqTotal(m.1, x.1);
        forall q | q in pq ensures EntryLe(x, q) {
          if q != x {
            assert q in rest && EntryLe(m, q);
            if x.0 == m.0 && m.0 == q.0 {
              Strings.LessEqTransitive(x.1, m.1, q.1);
            }
          }
        }
        assert IsMin(x, pq);
      }
    }
  }

  /** No entry of the queue has a smaller distance than e. */
  ghost predicate Least(e: Entry, pq: multiset<Entry>)
  {
    e in pq && forall q :: q in pq ==> e.0 <= q.0
  }

  lemma MinLeast(e: Entry, pq: multiset<Entry>)
    requires IsMin(e, pq)
    ensures Least(e, pq)
  {
  }

  // ---------------------------------------------------------------------------
  // The state of the search and its invariants

  /** `dist`, `prev` and `pq`, with the nodes settled so far (popped with their
      current distance), the order in which they were settled, and the
      distance of the last entry popped. */
  datatype Search = Search(dist: map<Name, Dist>, prev: map<Name, Option<Name>>, pq: multiset<Entry>,
                           settled: set<Name>, rank: map<Name, nat>, bound: real)

  ghost predicate Shape(adj: map<Name, seq<Name>>, s: Name, st: Search)
  {
    && st.dist.Keys == adj.Keys && st.prev.Keys == adj.Keys
    && st.settled <= adj.Keys && st.rank.Keys == st.settled
    && (forall u :: u in st.settled ==> st.rank[u] < |st.settled|)
    && s in adj && st.dist[s] == Fin(0.0) && st.prev[s] == None && 0.0 <= st.bound
  }

  /** v's predecessor u is settled, lists v, and v's distance is u's plus the weight of u-v;
      if v is settled too, u was settled first. */
  ghost predicate LinkOk(adj: map<Name, seq<Name>>, pesos: map<Edge, real>, st: Search, v: Name)
    requires v in st.prev && st.prev[v].Some?
  {
    var u := st.prev[v].value;
    && u in st.settled && u in adj && v in adj[u] && u in st.dist && v in st.dist
    && st.dist[u].Fin? && st.dist[v].Fin? && st.dist[v].value == st.dist[u].value + Weight(pesos, u, v)
    && (v in st.settled ==> u in st.rank && v in st.rank && st.rank[u] < st.rank[v])
  }

  ghost predicate Chain(adj: map<Name, seq<Name>>, pesos: map<Edge, real>, st: Search)
  {
    forall v :: v in st.prev && st.prev[v].Some? ==> LinkOk(adj, pesos, st, v)
  }

  /** Every node with a finite distance other than the source has a predecessor. */
  ghost predicate Reached(s: Name, st: Search)
  {
    forall v :: v in st.dist && st.dist[v].Fin? && v != s ==> v in st.prev && st.prev[v].Some?
  }

  ghost predicate SettledBelow(st: Search)
  {
    forall u :: u in st.settled ==> u in st.dist && st.dist[u].Fin? && st.dist[u].value <= st.bound
  }

  /** No queued entry is below the last one popped, nor below its node's distance. */
  ghost predicate QueueAbove(st: Search)
  {
    forall q :: q in st.pq ==>
      st.bound <= q.0 && q.1 in st.dist && st.dist[q.1].Fin? && st.dist[q.1].value <= q.0
  }

  /** The entry for a node's current distance is queued once while the node is
      unsettled, and not at all once it is settled. */
  ghost predicate Pending(st: Search)
  {
    forall v :: v in st.dist && st.dist[v].Fin? ==>
      st.pq[(st.dist[v].value, v)] == if v in st.settled then 0 else 1
  }

  /** Each of the first n names v in vs has a distance at most u's plus the weight of u-v. */
  ghost predicate RelaxedFrom(pesos: map<Edge, real>, st: Search, u: Name, vs: seq<Name>, n: nat)
  {
    && u in st.dist && st.dist[u].Fin? && n <= |vs|
    && forall k :: 0 <= k < n ==>
         vs[k] in st.dist && st.dist[vs[k]].Fin? && st.dist[vs[k]].value <= st.dist[u].value + Weight(pesos, u, vs[k])
  }

  ghost predicate Relaxed(adj: map<Name, seq<Name>>, pesos: map<Edge, real>, st: Search)
  {
    forall u :: u in st.settled ==> u in adj && RelaxedFrom(pesos, st, u, adj[u], |adj[u]|)
  }

  /** A settled node's distance is no more than the cost of any walk to it from s. */
  ghost predicate Optimal(adj: map<Name, seq<Name>>, pesos: map<Edge, real>, s: Name, st: Search)
  {
    forall p {:trigger IsWalk(adj, p)} :: IsWalk(adj, p) && p[0] == s && Last(p) in st.settled ==>
      Last(p) in st.dist && st.dist[Last(p)].Fin? && st.dist[Last(p)].value <= Cost(pesos, p)
  }

  ghost predicate Core(adj: map<Name, seq<Name>>, pesos: map<Edge, real>, s: Name, st: Search)
  {
    && Shape(adj, s, st) && Chain(adj, pesos, st) && Reached(s, st)
    && SettledBelow(st) && QueueAbove(st) && Pending(st) && Optimal(adj, pesos, s, st)
  }

  /** The invariant of the main loop. */
  ghost predicate Inv(adj: map<Name, seq<Name>>, pesos: map<Edge, real>, s: Name, st: Search)
  {
    Core(adj, pesos, s, st) && Relaxed(adj, pesos, st)
  }

  /** The invariant while u, just settled at distance `bound`, relaxes its neighbours:
      the first `done` of them are relaxed. */
  ghost predicate Inner(adj: map<Name, seq<Name>>, pesos: map<Edge, real>, s: Name, st: Search,
                        u: Name, done: nat)
  {
    && Core(adj, pesos, s, st)
    && u in st.settled && u in adj && u in st.dist && st.dist[u] == Fin(st.bound)
    && (forall w :: w in st.settled && w != u ==> w in adj && RelaxedFrom(pesos, st, w, adj[w], |adj[w]|))
    && RelaxedFrom(pesos, st, u, adj[u], done)
  }

  // ---------------------------------------------------------------------------
  // The steps of the search preserve the invariants

  lemma Init(adj: map<Name, seq<Name>>, pesos: map<Edge, real>, s: Name,
             dist: map<Name, Dist>, prev: map<Name, Option<Name>>)
    requires s in adj && dist.Keys == adj.Keys && prev.Keys == adj.Keys
    requires forall v :: v in dist ==> dist[v] == Inf
    requires forall v :: v in prev ==> prev[v] == None
    ensures Inv(adj, pesos, s, Search(dist[s := Fin(0.0)], prev, multiset{(0.0, s)}, {}, map[], 0.0))
  {
  }

  /** A walk of two or more nodes is a shorter walk followed by one more edge. */
  lemma WalkInit(adj: map<Name, seq<Name>>, pesos: map<Edge, real>, p: seq<Name>)
    requires IsWalk(adj, p) && |p| >= 2
    ensures var q := p[..|p| - 1];
      && IsWalk(adj, q) && q[0] == p[0] && Last(p) in adj[Last(q)]
      && Cost(pesos, p) == Cost(pesos, q) + Weight(pesos, Last(q), Last(p))
  {
  }

  /** Some entry of the queue costs no more than any walk from s to an unsettled node. */
  lemma {:induction false} Cut(adj: map<Name, seq<Name>>, pesos: map<Edge, real>, s: Name, st: Search, p: seq<Name>)
    requires GraphOk(adj, pesos) && Shape(adj, s, st) && Pending(st)
    requires Optimal(adj, pesos, s, st) && Relaxed(adj, pesos, st)
    requires IsWalk(adj, p) && p[0] == s && Last(p) !in st.settled
    ensures exists q :: q in st.pq && q.0 <= Cost(pesos, p)
    decreases |p|
  {
    if |p| == 1 {
      assert (0.0, s) in st.pq && Cost(pesos, p) == 0.0;
    } else {
      var q, t := p[..|p| - 1], Last(p);
      var r := Last(q);
      WalkInit(adj, pesos, p);
      WeightNonNegative(pesos, r, t);
      if r !in st.settled {
        Cut(adj, pesos, s, st, q);
        var e :| e in st.pq && e.0 <= Cost(pesos, q);
        assert e.0 <= Cost(pesos, p);
      } else {
        assert st.dist[r].value <= Cost(pesos, q);
        assert RelaxedFrom(pesos, st, r, adj[r], |adj[r]|);
        var k :| 0 <= k < |adj[r]| && adj[r][k] == t;
        var x := st.dist[t].value;
        assert x <= Cost(pesos, p);
        assert (x, t) in st.pq;
      }
    }
  }

  /** The state after popping e. */
  function Drop(st: Search, e: Entry): Search
  {
    st.(pq := st.pq - multiset{e}, bound := e.0)
  }

  /** The state after popping e and settling its node. */
  function Settle(st: Search, e: Entry): Search
  {
    st.(pq := st.pq - multiset{e}, settled := st.settled + {e.1}, rank := st.rank[e.1 := |st.settled|], bound := e.0)
  }

  /** The state after `dist[v] = nd; prev[v] = u; heappush(pq, (nd, v))`. */
  function Improve(st: Search, u: Name, v: Name, nd: real): Search
  {
    st.(dist := st.dist[v := Fin(nd)], prev := st.prev[v := Some(u)], pq := st.pq + multiset{(nd, v)})
  }

  lemma DropShape(adj: map<Name, seq<Name>>, s: Name, st: Search, e: Entry)
    requires Shape(adj, s, st) && st.bound <= e.0
    ensures Shape(adj, s, Drop(st, e))
  {
  }

  /** Popping changes neither distances, predecessors nor the settled nodes. */
  lemma DropKeeps(adj: map<Name, seq<Name>>, pesos: map<Edge, real>, s: Name, st: Search, e: Entry)
    requires Chain(adj, pesos, st) && Reached(s, st) && Optimal(adj, pesos, s, st) && Relaxed(adj, pesos, st)
    ensures var st' := Drop(st, e);
      Chain(adj, pesos, st') && Reached(s, st') && Optimal(adj, pesos, s, st') && Relaxed(adj, pesos, st')
  {
    var st' := Drop(st, e);
    forall v | v in st'.prev && st'.prev[v].Some? ensures LinkOk(adj, pesos, st', v) {
      assert LinkOk(adj, pesos, st, v);
    }
    forall w | w in st'.settled ensures w in adj && RelaxedFrom(pesos, st', w, adj[w], |adj[w]|) {
      assert RelaxedFrom(pesos, st, w, adj[w], |adj[w]|);
    }
  }

  lemma DropBelow(st: Search, e: Entry)
    requires SettledBelow(st) && st.bound <= e.0
    ensures SettledBelow(Drop(st, e))
  {
  }

  lemma DropQueue(st: Search, e: Entry)
    requires QueueAbove(st) && Least(e, st.pq)
    ensures QueueAbove(Drop(st, e))
  {
  }

  lemma DropPending(st: Search, e: Entry)
    requires Pending(st) && !(e.1 in st.dist && st.dist[e.1] == Fin(e.0))
    ensures Pending(Drop(st, e))
  {
    var st' := Drop(st, e);
    forall v | v in st'.dist && st'.dist[v].Fin? ensures st'.pq[(st'.dist[v].value, v)] == if v in st'.settled then 0 else 1 {
      assert (st.dist[v].value, v) != e;
    }
  }

  /** A popped entry that is out of date is dropped. */
  lemma PopStale(adj: map<Name, seq<Name>>, pesos: map<Edge, real>, s: Name, st: Search, e: Entry)
    requires Inv(adj, pesos, s, st) && Least(e, st.pq)
    requires !(e.1 in st.dist && st.dist[e.1] == Fin(e.0))
    ensures Inv(adj, pesos, s, Drop(st, e))
  {
    assert st.bound <= e.0;
    DropShape(adj, s, st, e);
    DropKeeps(adj, pesos, s, st, e);
    DropBelow(st, e);
    DropQueue(st, e);
    DropPending(st, e);
  }

  lemma SettleShape(adj: map<Name, seq<Name>>, s: Name, st: Search, e: Entry)
    requires Shape(adj, s, st) && e.1 in adj && e.1 !in st.settled && st.bound <= e.0
    ensures Shape(adj, s, Settle(st, e))
  {
  }

  lemma SettleChain(adj: map<Name, seq<Name>>, pesos: map<Edge, real>, st: Search, e: Entry)
    requires Chain(adj, pesos, st) && e.1 !in st.settled && st.rank.Keys == st.settled
    requires forall w :: w in st.settled ==> st.rank[w] < |st.settled|
    ensures Chain(adj, pesos, Settle(st, e))
  {
    var st' := Settle(st, e);
    forall v | v in st'.prev && st'.prev[v].Some? ensures LinkOk(adj, pesos, st', v) {
      assert LinkOk(adj, pesos, st, v);
    }
  }

  lemma SettleBelow(st: Search, e: Entry)
    requires SettledBelow(st) && st.bound <= e.0 && e.1 in st.dist && st.dist[e.1] == Fin(e.0)
    ensures SettledBelow(Settle(st, e))
  {
  }

  lemma SettleQueue(st: Search, e: Entry)
    requires QueueAbove(st) && Least(e, st.pq)
    ensures QueueAbove(Settle(st, e))
  {
  }

  lemma SettlePending(st: Search, e: Entry)
    requires Pending(st) && e in st.pq && e.1 in st.dist && st.dist[e.1] == Fin(e.0)
    ensures e.1 !in st.settled && Pending(Settle(st, e))
  {
    assert st.pq[(e.0, e.1)] >= 1;
  }

  lemma SettleOptimal(adj: map<Name, seq<Name>>, pesos: map<Edge, real>, s: Name, st: Search, e: Entry)
    requires GraphOk(adj, pesos) && Shape(adj, s, st) && Pending(st)
    requires Optimal(adj, pesos, s, st) && Relaxed(adj, pesos, st)
    requires Least(e, st.pq) && e.1 in st.dist && st.dist[e.1] == Fin(e.0)
    ensures Optimal(adj, pesos, s, Settle(st, e))
  {
    var st' := Settle(st, e);
    forall p | IsWalk(adj, p) && p[0] == s && Last(p) in st'.settled
      ensures Last(p) in st'.dist && st'.dist[Last(p)].Fin? && st'.dist[Last(p)].value <= Cost(pesos, p)
    {
      if Last(p) !in st.settled {
        Cut(adj, pesos, s, st, p);
      }
    }
  }

  lemma SettleRelaxed(adj: map<Name, seq<Name>>, pesos: map<Edge, real>, st: Search, e: Entry)
    requires Relaxed(adj, pesos, st)
    ensures var st' := Settle(st, e);
      forall w :: w in st'.settled && w != e.1 ==> w in adj && RelaxedFrom(pesos, st', w, adj[w], |adj[w]|)
  {
    var st' := Settle(st, e);
    forall w | w in st'.settled && w != e.1 ensures w in adj && RelaxedFrom(pesos, st', w, adj[w], |adj[w]|) {
      assert RelaxedFrom(pesos, st, w, adj[w], |adj[w]|);
    }
  }

  lemma SettleReached(s: Name, st: Search, e: Entry)
    requires Reached(s, st)
    ensures Reached(s, Settle(st, e))
  {
  }

  /** Settling one more node leaves fewer unsettled: the outer loop terminates. */
  lemma Fewer(nodes: set<Name>, settled: set<Name>, u: Name)
    requires u in nodes && u !in settled
    ensures |nodes - (settled + {u})| < |nodes - settled|
  {
    assert nodes - settled == (nodes - (settled + {u})) + {u};
  }

  /** A popped entry that carries its node's distance settles the node: no walk
      from s to it is cheaper. */
  lemma PopFresh(adj: map<Name, seq<Name>>, pesos: map<Edge, real>, s: Name, st: Search, e: Entry)
    requires GraphOk(adj, pesos) && Inv(adj, pesos, s, st) && Least(e, st.pq)
    requires e.1 in st.dist && st.dist[e.1] == Fin(e.0)
    ensures e.1 in adj && e.1 !in st.settled
    ensures |adj.Keys - (st.settled + {e.1})| < |adj.Keys - st.settled|
    ensures Inner(adj, pesos, s, Settle(st, e), e.1, 0)
  {
    SettlePending(st, e);
    Fewer(adj.Keys, st.settled, e.1);
    SettleReached(s, st, e);
    SettleShape(adj, s, st, e);
    SettleChain(adj, pesos, st, e);
    SettleBelow(st, e);
    SettleQueue(st, e);
    SettleOptimal(adj, pesos, s, st, e);
    SettleRelaxed(adj, pesos, st, e);
  }

  lemma ImproveShape(adj: map<Name, seq<Name>>, s: Name, st: Search, u: Name, v: Name, nd: real)
    requires Shape(adj, s, st) && v in adj && v != s
    ensures Shape(adj, s, Improve(st, u, v, nd))
  {
  }

  lemma ImproveChain(adj: map<Name, seq<Name>>, pesos: map<Edge, real>, st: Search, u: Name, v: Name, nd: real)
    requires Chain(adj, pesos, st) && v !in st.settled && u != v
    requires u in st.settled && u in adj && v in adj[u] && u in st.dist && v in st.dist
    requires st.dist[u].Fin? && nd == st.dist[u].value + Weight(pesos, u, v)
    ensures Chain(adj, pesos, Improve(st, u, v, nd))
  {
    var st' := Improve(st, u, v, nd);
    forall x | x in st'.prev && st'.prev[x].Some? ensures LinkOk(adj, pesos, st', x) {
      if x != v {
        assert LinkOk(adj, pesos, st, x);
      }
    }
  }

  lemma ImproveReached(s: Name, st: Search, u: Name, v: Name, nd: real)
    requires Reached(s, st) && v in st.prev
    ensures Reached(s, Improve(st, u, v, nd))
  {
  }

  lemma ImproveBelow(st: Search, u: Name, v: Name, nd: real)
    requires SettledBelow(st) && v !in st.settled
    ensures SettledBelow(Improve(st, u, v, nd))
  {
  }

  lemma ImproveQueue(st: Search, u: Name, v: Name, nd: real)
    requires QueueAbove(st) && v in st.dist && st.bound <= nd && Below(nd, st.dist[v])
    ensures QueueAbove(Improve(st, u, v, nd))
  {
  }

  lemma ImprovePending(st: Search, u: Name, v: Name, nd: real)
    requires Pending(st) && QueueAbove(st) && v in st.dist && v !in st.settled && Below(nd, st.dist[v])
    ensures Pending(Improve(st, u, v, nd))
  {
    assert (nd, v) !in st.pq;
  }

  lemma ImproveOptimal(adj: map<Name, seq<Name>>, pesos: map<Edge, real>, s: Name, st: Search, u: Name, v: Name, nd: real)
    requires Optimal(adj, pesos, s, st) && v !in st.settled
    ensures Optimal(adj, pesos, s, Improve(st, u, v, nd))
  {
    var st' := Improve(st, u, v, nd);
    forall p | IsWalk(adj, p) && p[0] == s && Last(p) in st'.settled
      ensures Last(p) in st'.dist && st'.dist[Last(p)].Fin? && st'.dist[Last(p)].value <= Cost(pesos, p)
    {
      assert Last(p) in st.settled;
    }
  }

  /** A lower distance at v keeps every relaxation bound into v and leaves those out of other nodes. */
  lemma ImproveFrom(pesos: map<Edge, real>, st: Search, u: Name, v: Name, nd: real, w: Name, vs: seq<Name>, n: nat)
    requires RelaxedFrom(pesos, st, w, vs, n) && w != v && v in st.dist && Below(nd, st.dist[v])
    ensures RelaxedFrom(pesos, Improve(st, u, v, nd), w, vs, n)
  {
  }

  lemma ImproveOthers(adj: map<Name, seq<Name>>, pesos: map<Edge, real>, st: Search, u: Name, v: Name, nd: real)
    requires forall w :: w in st.settled && w != u ==> w in adj && RelaxedFrom(pesos, st, w, adj[w], |adj[w]|)
    requires v !in st.settled && v in st.dist && Below(nd, st.dist[v])
    ensures var st' := Improve(st, u, v, nd);
      forall w :: w in st'.settled && w != u ==> w in adj && RelaxedFrom(pesos, st', w, adj[w], |adj[w]|)
  {
    var st' := Improve(st, u, v, nd);
    forall w | w in st'.settled && w != u ensures w in adj && RelaxedFrom(pesos, st', w, adj[w], |adj[w]|) {
      ImproveFrom(pesos, st, u, v, nd, w, adj[w], |adj[w]|);
    }
  }

  /** The relaxation bound for one more neighbour. */
  lemma RelaxedExtend(pesos: map<Edge, real>, st: Search, u: Name, vs: seq<Name>, n: nat)
    requires RelaxedFrom(pesos, st, u, vs, n) && n < |vs| && vs[n] in st.dist && st.dist[vs[n]].Fin?
    requires st.dist[vs[n]].value <= st.dist[u].value + Weight(pesos, u, vs[n])
    ensures RelaxedFrom(pesos, st, u, vs, n + 1)
  {
  }

  /** Relaxing u-v when `nd < dist[v]`: v gets distance nd, predecessor u and a queue entry. */
  lemma RelaxUpdate(adj: map<Name, seq<Name>>, pesos: map<Edge, real>, s: Name, st: Search, u: Name, j: nat,
                    v: Name, nd: real)
    requires GraphOk(adj, pesos) && u in adj && j < |adj[u]| && Inner(adj, pesos, s, st, u, j)
    requires v == adj[u][j] && nd == st.bound + Weight(pesos, u, v)
    requires v in st.dist && Below(nd, st.dist[v])
    ensures Inner(adj, pesos, s, Improve(st, u, v, nd), u, j + 1)
  {
    var st' := Improve(st, u, v, nd);
    WeightNonNegative(pesos, u, v);
    assert v !in st.settled && v != s && v != u;
    ImproveShape(adj, s, st, u, v, nd);
    ImproveChain(adj, pesos, st, u, v, nd);
    ImproveReached(s, st, u, v, nd);
    ImproveBelow(st, u, v, nd);
    ImproveQueue(st, u, v, nd);
    ImprovePending(st, u, v, nd);
    ImproveOptimal(adj, pesos, s, st, u, v, nd);
    ImproveOthers(adj, pesos, st, u, v, nd);
    ImproveFrom(pesos, st, u, v, nd, u, adj[u], j);
    RelaxedExtend(pesos, st', u, adj[u], j);
  }

  /** Relaxing u-v when `nd >= dist[v]` changes nothing. */
  lemma RelaxKeep(adj: map<Name, seq<Name>>, pesos: map<Edge, real>, s: Name, st: Search, u: Name, j: nat,
                  v: Name, nd: real)
    requires GraphOk(adj, pesos) && u in adj && j < |adj[u]| && Inner(adj, pesos, s, st, u, j)
    requires v == adj[u][j] && nd == st.bound + Weight(pesos, u, v)
    requires v in st.dist && !Below(nd, st.dist[v])
    ensures Inner(adj, pesos, s, st, u, j + 1)
  {
    RelaxedExtend(pesos, st, u, adj[u], j);
  }

  lemma Finish(adj: map<Name, seq<Name>>, pesos: map<Edge, real>, s: Name, st: Search, u: Name)
    requires u in adj && Inner(adj, pesos, s, st, u, |adj[u]|)
    ensures Inv(adj, pesos, s, st)
  {
  }

  /** When the search ends, a finite distance to t is optimal and an infinite one
      means t cannot be reached. */
  lemma Answer(adj: map<Name, seq<Name>>, pesos: map<Edge, real>, s: Name, t: Name, st: Search)
    requires GraphOk(adj, pesos) && Core(adj, pesos, s, st) && t in adj
    requires t in st.settled || (|st.pq| == 0 && Relaxed(adj, pesos, st))
    ensures st.dist[t].Fin? ==> forall p :: IsPath(adj, p, s, t) ==> st.dist[t].value <= Cost(pesos, p)
    ensures st.dist[t].Inf? ==> forall p :: !IsPath(adj, p, s, t)
  {
    if t !in st.settled {
      assert st.dist[t].Inf?;
      forall p | IsPath(adj, p, s, t) ensures false {
        Cut(adj, pesos, s, st, p);
      }
    }
  }

  // ---------------------------------------------------------------------------
  // The algorithm

  /** The sequence backwards. */
  function Reversed(s: seq<Name>): (r: seq<Name>)
    ensures |r| == |s|
    decreases |s|
  {
    if s == [] then [] else [s[|s| - 1]] + Reversed(s[..|s| - 1])
  }

  lemma {:induction false} ReversedIndex(s: seq<Name>)
    ensures forall i :: 0 <= i < |s| ==> Reversed(s)[i] == s[|s| - 1 - i]
    decreases |s|
  {
    if s != [] {
      ReversedIndex(s[..|s| - 1]);
    }
  }

  lemma ReversedSnoc(s: seq<Name>, x: Name)
    ensures Reversed(s + [x]) == [x] + Reversed(s)
  {
    assert (s + [x])[..|s|] == s;
  }

  /** Since (dist0, prev0, pq0), entries were only pushed, and every distance that
      changed went down and got u as predecessor. */
  ghost predicate Lowered(dist0: map<Name, Dist>, prev0: map<Name, Option<Name>>, pq0: multiset<Entry>,
                          dist: map<Name, Dist>, prev: map<Name, Option<Name>>, pq: multiset<Entry>, u: Name)
  {
    && pq0 <= pq && dist.Keys == dist0.Keys && prev.Keys == prev0.Keys == dist0.Keys
    && forall v :: v in dist0 && dist[v] != dist0[v] ==>
         dist[v].Fin? && Below(dist[v].value, dist0[v]) && prev[v] == Some(u)
  }

  lemma LoweredStep(dist0: map<Name, Dist>, prev0: map<Name, Option<Name>>, pq0: multiset<Entry>,
                    dist: map<Name, Dist>, prev: map<Name, Option<Name>>, pq: multiset<Entry>,
                    u: Name, v: Name, nd: real)
    requires Lowered(dist0, prev0, pq0, dist, prev, pq, u) && v in dist && v in prev && Below(nd, dist[v])
    ensures Lowered(dist0, prev0, pq0, dist[v := Fin(nd)], prev[v := Some(u)], pq + multiset{(nd, v)}, u)
  {
  }

  /** The `for v in G.get_vizinhos(u)` loop of `dijkstra`: u was popped with its
      distance d; every neighbour v whose distance exceeds d + w gets that
      distance, u as predecessor and a new queue entry. Afterwards all of u's
      neighbours are relaxed. */
  method Relaxar(g: Graph, u: Name, d: real, dist0: map<Name, Dist>, prev0: map<Name, Option<Name>>,
                 pq0: multiset<Entry>, ghost adj: map<Name, seq<Name>>, ghost pesos: map<Edge, real>,
                 ghost s: Name, ghost settled: set<Name>, ghost rank: map<Name, nat>)
    returns (dist: map<Name, Dist>, prev: map<Name, Option<Name>>, pq: multiset<Entry>)
    requires g.adjacencia == adj && g.pesos == pesos && GraphOk(adj, pesos) && u in adj
    requires Inner(adj, pesos, s, Search(dist0, prev0, pq0, settled, rank, d), u, 0)
    ensures Inv(adj, pesos, s, Search(dist, prev, pq, settled, rank, d))
    ensures Lowered(dist0, prev0, pq0, dist, prev, pq, u)
  {
    dist, prev, pq := dist0, prev0, pq0;
    var vizinhos := g.GetVizinhos(u);
    var j := 0;
    while j < |vizinhos|
      invariant 0 <= j <= |vizinhos| && vizinhos == adj[u]
      invariant Inner(adj, pesos, s, Search(dist, prev, pq, settled, rank, d), u, j)
      invariant Lowered(dist0, prev0, pq0, dist, prev, pq, u)
    {
      var v := vizinhos[j];
      var w := g.GetPeso(u, v);
      var nd := d + w;
      ghost var st := Search(dist, prev, pq, settled, rank, d);
      NeighbourIsNode(adj, u, j);
      if Below(nd, dist[v]) {
        RelaxUpdate(adj, pesos, s, st, u, j, v, nd);
        LoweredStep(dist0, prev0, pq0, dist, prev, pq, u, v, nd);
        dist := dist[v := Fin(nd)];
        prev := prev[v := Some(u)];
        pq := pq + multiset{(nd, v)};
      } else {
        RelaxKeep(adj, pesos, s, st, u, j, v, nd);
      }
      j := j + 1;
    }
    Finish(adj, pesos, s, Search(dist, prev, pq, settled, rank, d), u);
  }

  /** The `while pq` loop of `dijkstra`, with the initial `dist[origem] = 0.0` and
      `pq = [(0.0, origem)]`: pops the smallest entry, skips it when stale, stops
      when it is destino and otherwise relaxes its neighbours. On exit a finite
      distance to destino is the least cost of any walk there, and an infinite
      one means there is no such walk. */
  method Explorar(g: Graph, origem: Name, destino: Name, dist0: map<Name, Dist>, prev0: map<Name, Option<Name>>,
                  ghost adj: map<Name, seq<Name>>, ghost pesos: map<Edge, real>)
    returns (dist: map<Name, Dist>, prev: map<Name, Option<Name>>, ghost st: Search)
    requires g.adjacencia == adj && g.pesos == pesos && GraphOk(adj, pesos) && origem in adj && destino in adj
    requires dist0.Keys == adj.Keys && prev0.Keys == adj.Keys
    requires forall v :: v in dist0 ==> dist0[v] == Inf
    requires forall v :: v in prev0 ==> prev0[v] == None
    ensures st.dist == dist && st.prev == prev
    ensures Shape(adj, origem, st) && Chain(adj, pesos, st) && Reached(origem, st)
    ensures dist[destino].Fin? ==> forall p :: IsPath(adj, p, origem, destino) ==> dist[destino].value <= Cost(pesos, p)
    ensures dist[destino].Inf? ==> forall p :: !IsPath(adj, p, origem, destino)
  {
    Init(adj, pesos, origem, dist0, prev0);
    dist := dist0[origem := Fin(0.0)];
    prev := prev0;
    var pq := multiset{(0.0, origem)};
    ghost var settled: set<Name> := {};
    ghost var rank: map<Name, nat> := map[];
    ghost var bound := 0.0;
    ghost var found := false;

    while |pq| > 0
      invariant Inv(adj, pesos, origem, Search(dist, prev, pq, settled, rank, bound))
      invariant !found
      decreases |adj.Keys - settled|, |pq|
    {
      MinExists(pq);
      var e :| IsMin(e, pq);
      MinLeast(e, pq);
      var d, u := e.0, e.1;
      ghost var st0 := Search(dist, prev, pq, settled, rank, bound);
      pq := pq - multiset{e};
      if dist[u] != Fin(d) {
        PopStale(adj, pesos, origem, st0, e);
        bound := d;
        continue;
      }
      PopFresh(adj, pesos, origem, st0, e);
      rank := rank[u := |settled|];
      settled := settled + {u};
      bound := d;
      if u == destino {
        found := true;
        st := Search(dist, prev, pq, settled, rank, bound);
        Answer(adj, pesos, origem, destino, st);
        break;
      }
      dist, prev, pq := Relaxar(g, u, d, dist, prev, pq, adj, pesos, origem, settled, rank);
    }
    if !found {
      st := Search(dist, prev, pq, settled, rank, bound);
      Answer(adj, pesos, origem, destino, st);
    }
  }

  /** How far the walk back along `prev` can still go from cur: settled nodes by
      their settling order, any other node above all of them. */
  ghost function Height(st: Search, cur: Option<Name>): nat
  {
    if cur.None? then 0
    else if cur.value in st.settled && cur.value in st.rank then st.rank[cur.value] + 1
    else |st.settled| + 1
  }

  /** One step back along `prev`: the walk behind c, extended by c, still ends at
      t and carries the rest of t's distance; c's predecessor is lower. */
  lemma Back(adj: map<Name, seq<Name>>, pesos: map<Edge, real>, s: Name, st: Search,
             t: Name, c: Name, walk: seq<Name>)
    requires Shape(adj, s, st) && Chain(adj, pesos, st)
    requires c in adj && st.dist[c].Fin? && t in adj && st.dist[t].Fin?
    requires walk == [] ==> c == t
    requires walk != [] ==>
      && IsWalk(adj, walk) && Last(walk) == t && walk[0] in adj && st.prev[walk[0]] == Some(c)
      && st.dist[walk[0]].Fin? && st.dist[t].value == st.dist[walk[0]].value + Cost(pesos, walk)
    ensures IsWalk(adj, [c] + walk) && Last([c] + walk) == t && ([c] + walk)[0] == c
    ensures st.dist[t].value == st.dist[c].value + Cost(pesos, [c] + walk)
    ensures st.prev[c].Some? ==> st.prev[c].value in adj && st.dist[st.prev[c].value].Fin?
    ensures Height(st, st.prev[c]) < Height(st, Some(c))
  {
    if walk != [] {
      assert LinkOk(adj, pesos, st, walk[0]);
      WalkCons(adj, c, walk);
      CostCons(pesos, c, walk);
    } else {
      assert [c] + walk == [c];
    }
    if st.prev[c].Some? {
      assert LinkOk(adj, pesos, st, c);
    }
  }

  /** The path reconstruction of `dijkstra`: follow `prev` from destino until
      None, appending each node, then reverse. The result is a walk from origem
      to destino whose cost is destino's distance. */
  method Caminho(prev: map<Name, Option<Name>>, destino: Name, ghost adj: map<Name, seq<Name>>,
                 ghost pesos: map<Edge, real>, ghost origem: Name, ghost st: Search) returns (path: seq<Name>)
    requires st.prev == prev && Shape(adj, origem, st) && Chain(adj, pesos, st) && Reached(origem, st)
    requires destino in adj && st.dist[destino].Fin?
    ensures IsPath(adj, path, origem, destino) && Cost(pesos, path) == st.dist[destino].value
    ensures origem == destino ==> path == [origem]
  {
    path := [];
    var cur := Some(destino);
    ghost var walk: seq<Name> := [];
    while cur.Some?
      invariant walk == Reversed(path)
      invariant cur.Some? ==> cur.value in adj && st.dist[cur.value].Fin?
      invariant path == [] ==> cur == Some(destino)
      invariant path != [] ==>
        && IsWalk(adj, walk) && Last(walk) == destino && walk[0] in adj && cur == prev[walk[0]]
        && st.dist[walk[0]].Fin? && st.dist[destino].value == st.dist[walk[0]].value + Cost(pesos, walk)
      invariant origem == destino && path != [] ==> path == [origem] && cur == None
      decreases Height(st, cur)
    {
      var c := cur.value;
      ReversedSnoc(path, c);
      Back(adj, pesos, origem, st, destino, c, walk);
      path := path + [c];
      walk := [c] + walk;
      cur := prev[c];
    }
    path := Reversed(path);
  }


  /** `dijkstra(G, origem, destino)`: INF and no path when an endpoint is not a
      node or the destination cannot be reached; otherwise the cheapest cost
      and a walk from origem to destino that costs exactly that. */
  method Dijkstra(g: Graph, origem: Name, destino: Name) returns (custo: Dist, path: seq<Name>)
    requires g.Valid() && NonNegativeWeights(g.pesos)
    ensures origem !in g.nodes || destino !in g.nodes ==> custo == Inf && path == []
    ensures custo.Inf? ==> path == [] && forall p :: !IsPath(g.adjacencia, p, origem, destino)
    ensures custo.Fin? ==>
      && IsPath(g.adjacencia, path, origem, destino)
      && custo.value == Cost(g.pesos, path)
      && 0.0 <= custo.value
      && forall p :: IsPath(g.adjacencia, p, origem, destino) ==> custo.value <= Cost(g.pesos, p)
    ensures origem in g.nodes && origem == destino ==> custo == Fin(0.0) && path == [origem]
  {
    ghost var adj, pesos := g.adjacencia, g.pesos;
    assert Closed(adj) && adj.Keys == g.nodes.Keys;
    var dist := map v | v in g.nodes :: Inf;
    var prev := map v | v in g.nodes :: None;
    if origem !in dist || destino !in dist {
      forall p | IsPath(adj, p, origem, destino) ensures false {
        WalkAdjacent(adj, p);
      }
      return Inf, [];
    }
    ghost var st;
    dist, prev, st := Explorar(g, origem, destino, dist, prev, adj, pesos);
    if dist[destino] == Inf {
      return Inf, [];
    }
    path := Caminho(prev, destino, adj, pesos, origem, st);
    CostNonNegative(pesos, path);
    custo := Fin(dist[destino].value);
    if origem == destino {
      assert IsPath(adj, [origem], origem, destino);
    }
  }
}
