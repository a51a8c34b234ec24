/** Undirected graphs, depth-first and breadth-first search, and connected components (include/graph.hpp).
    A `for` over a hash table visits its keys in an unspecified order; here every order is allowed. */
module Graph {

  type Adjacency<T(==)> = map<T, map<T, real>>

  function Adjacent<T(==)>(g: Adjacency<T>, v: T): set<T>
  {
    if v in g then g[v].Keys else {}
  }

  /** Every vertex the graph mentions. */
  function Mentioned<T(==)>(g: Adjacency<T>): set<T>
  {
    g.Keys + set v, w | v in g && w in g[v] :: w
  }

  lemma AdjacentMentioned<T>(g: Adjacency<T>, v: T, w: T)
    requires w in Adjacent(g, v)
    ensures w in Mentioned(g)
  {
    assert v in g && w in g[v];
  }

  // ---------------------------------------------------------------- walks

  ghost predicate IsWalk<T(!new)>(g: Adjacency<T>, p: seq<T>, v: T, w: T)
  {
    && |p| > 0 && p[0] == v && p[|p| - 1] == w
    && forall i :: 0 <= i < |p| - 1 ==> p[i + 1] in Adjacent(g, p[i])
  }

  ghost predicate Reaches<T(!new)>(g: Adjacency<T>, v: T, w: T)
  {
    exists p :: IsWalk(g, p, v, w)
  }

  lemma ReachesSelf<T(!new)>(g: Adjacency<T>, v: T)
    ensures Reaches(g, v, v)
  {
    assert IsWalk(g, [v], v, v);
  }

  lemma WalkConcat<T(!new)>(g: Adjacency<T>, p: seq<T>, q: seq<T>, u: T, v: T, w: T)
    requires IsWalk(g, p, u, v) && IsWalk(g, q, v, w)
    ensures IsWalk(g, p + q[1..], u, w)
  {
    var r := p + q[1..];
    forall i | 0 <= i < |r| - 1
      ensures r[i + 1] in Adjacent(g, r[i])
    {
      if i >= |p| - 1 {
        assert r[i] == q[i - (|p| - 1)] && r[i + 1] == q[i - (|p| - 1) + 1];
      }
    }
  }

  lemma ReachesTransitive<T(!new)>(g: Adjacency<T>, u: T, v: T, w: T)
    requires Reaches(g, u, v) && Reaches(g, v, w)
    ensures Reaches(g, u, w)
  {
    var p :| IsWalk(g, p, u, v);
    var q :| IsWalk(g, q, v, w);
    WalkConcat(g, p, q, u, v, w);
  }

  lemma ReachesEdge<T(!new)>(g: Adjacency<T>, v: T, w: T)
    requires w in Adjacent(g, v)
    ensures Reaches(g, v, w)
  {
    assert IsWalk(g, [v, w], v, w);
  }

  ghost predicate Closed<T>(g: Adjacency<T>, s: set<T>)
  {
    forall v :: v in s ==> Adjacent(g, v) <= s
  }

  lemma {:induction false} WalkStaysIn<T(!new)>(g: Adjacency<T>, s: set<T>, p: seq<T>, v: T, w: T)
    requires Closed(g, s) && v in s && IsWalk(g, p, v, w)
    ensures w in s
    decreases |p|
  {
    if |p| > 1 {
      assert p[1] in Adjacent(g, p[0]);
      assert IsWalk(g, p[1..], p[1], w);
      WalkStaysIn(g, s, p[1..], p[1], w);
    }
  }

  // ---------------------------------------------------------------- undirected graphs

  ghost predicate Symmetric<T(!new)>(g: Adjacency<T>)
  {
    && (forall v, w :: w in Adjacent(g, v) ==> v in Adjacent(g, w))
    && forall v, w :: w in Adjacent(g, v) ==> w in g
  }

  function WithArc<T(==)>(g: Adjacency<T>, v: T, w: T, wgt: real): Adjacency<T>
  {
    g[v := (if v in g then g[v] else map[])[w := wgt]]
  }

  function WithEdge<T(==)>(g: Adjacency<T>, v: T, w: T, wgt: real): Adjacency<T>
  {
    WithArc(WithArc(g, v, w, wgt), w, v, wgt)
  }

  /** The pair is one of the listed edges, in either direction. */
  predicate Joined<T(==)>(tpls: seq<(T, T)>, x: T, y: T)
  {
    (x, y) in tpls || (y, x) in tpls
  }

  lemma WithEdgeAdjacent<T>(g: Adjacency<T>, v: T, w: T, wgt: real, x: T)
    ensures var g' := WithEdge(g, v, w, wgt);
            && Adjacent(g', x) == Adjacent(g, x) + (if x == v then {w} else {}) + (if x == w then {v} else {})
            && (x in g' <==> x in g || x == v || x == w)
  {
  }

  /** Weight wgt in both directions, and every other pair is an edge exactly when it was, with the weight it had. */
  lemma WithEdgeWeights<T>(g: Adjacency<T>, v: T, w: T, wgt: real)
    ensures var g' := WithEdge(g, v, w, wgt);
            && v in g' && w in g'[v] && w in g' && v in g'[w] && g'[v][w] == g'[w][v] == wgt
            && (forall x, y {:trigger y in g'[x]} :: (x, y) != (v, w) && (x, y) != (w, v) ==>
                  ((x in g' && y in g'[x]) <==> (x in g && y in g[x]))
                  && (x in g' && y in g'[x] ==> g'[x][y] == g[x][y]))
  {
  }

  /** Every edge weighs x. */
  ghost predicate AllWeigh<T(!new)>(g: Adjacency<T>, x: real)
  {
    forall v, w :: v in g && w in g[v] ==> g[v][w] == x
  }

  lemma WithEdgeAllWeigh<T(!new)>(g: Adjacency<T>, v: T, w: T, x: real)
    requires AllWeigh(g, x)
    ensures AllWeigh(WithEdge(g, v, w, x), x)
  {
  }

  lemma WithEdgeSymmetric<T(!new)>(g: Adjacency<T>, v: T, w: T, wgt: real)
    requires Symmetric(g)
    ensures Symmetric(WithEdge(g, v, w, wgt))
  {
    var g' := WithEdge(g, v, w, wgt);
    hide WithEdge;
    forall x, y | y in Adjacent(g', x)
      ensures x in Adjacent(g', y) && y in g'
    {
      WithEdgeAdjacent(g, v, w, wgt, x);
      WithEdgeAdjacent(g, v, w, wgt, y);
    }
  }

  class UndirectedGraph<T(==, !new)> {
    var adj: Adjacency<T>
    var vSz: nat
    var eSz: nat

    constructor ()
      ensures adj == map[] && vSz == 0 && eSz == 0
    {
      adj, vSz, eSz := map[], 0, 0;
    }

    method AddEdge(v: T, w: T, wgt: real)
      modifies this
      ensures adj == WithEdge(old(adj), v, w, wgt)
      ensures v in adj && w in adj[v] && w in adj && v in adj[w] && adj[v][w] == adj[w][v] == wgt
      ensures forall x, y {:trigger y in adj[x]} :: (x, y) != (v, w) && (x, y) != (w, v) ==>
                ((x in adj && y in adj[x]) <==> (x in old(adj) && y in old(adj)[x]))
                && (x in adj && y in adj[x] ==> adj[x][y] == old(adj)[x][y])
      ensures eSz == old(eSz) + 1 && vSz == |adj|
    {
      WithEdgeWeights(adj, v, w, wgt);
      adj := WithArc(adj, v, w, wgt);
      adj := WithArc(adj, w, v, wgt);
      eSz := eSz + 1;
      vSz := |adj|;
    }

    constructor FromTuples(tpls: seq<(T, T)>)
      ensures Symmetric(adj) && IsGraphOf(adj, tpls) && eSz == |tpls| && vSz == |adj|
      ensures forall v, w :: v in adj && w in adj[v] ==> adj[v][w] == 1.0
    {
      adj, vSz, eSz := map[], 0, 0;
      new;
      assert [] + tpls == tpls && AllWeigh(adj, 1.0);
      ConstructFromTuples(tpls, []);
    }

    /** Adds the listed edges to those of `before`. */
    method ConstructFromTuples(tpls: seq<(T, T)>, ghost before: seq<(T, T)>)
      requires Symmetric(adj) && IsGraphOf(adj, before) && eSz == |before| && vSz == |adj| && AllWeigh(adj, 1.0)
      modifies this
      ensures Symmetric(adj) && IsGraphOf(adj, before + tpls) && eSz == |before| + |tpls| && vSz == |adj|
      ensures AllWeigh(adj, 1.0)
    {
      hide WithEdge, IsGraphOf, Symmetric, AllWeigh;
      ghost var done := before;
      for i := 0 to |tpls|
        invariant done == before + tpls[..i]
        invariant Symmetric(adj) && IsGraphOf(adj, done) && eSz == |done| && vSz == |adj| && AllWeigh(adj, 1.0)
      {
        var (v, w) := tpls[i];
        GraphOfAppend(adj, done, v, w, 1.0);
        WithEdgeSymmetric(adj, v, w, 1.0);
        WithEdgeAllWeigh(adj, v, w, 1.0);
        AddEdge(v, w, 1.0);
        done := done + [(v, w)];
      }
      assert tpls[..|tpls|] == tpls;
    }
  }

  /** The edges are exactly the listed pairs, and the vertices those with an edge. */
  ghost predicate IsGraphOf<T(!new)>(g: Adjacency<T>, tpls: seq<(T, T)>)
  {
    && (forall x, y :: y in Adjacent(g, x) <==> Joined(tpls, x, y))
    && (forall x :: x in g <==> Adjacent(g, x) != {})
  }

  lemma GraphOfAppend<T(!new)>(g: Adjacency<T>, tpls: seq<(T, T)>, v: T, w: T, wgt: real)
    requires IsGraphOf(g, tpls)
    ensures IsGraphOf(WithEdge(g, v, w, wgt), tpls + [(v, w)])
  {
    var g' := WithEdge(g, v, w, wgt);
    hide WithEdge;
    forall x
      ensures x in g' <==> Adjacent(g', x) != {}
      ensures forall y :: y in Adjacent(g', x) <==> Joined(tpls + [(v, w)], x, y)
    {
      WithEdgeAdjacent(g, v, w, wgt, x);
      forall y
        ensures Joined(tpls + [(v, w)], x, y) <==> Joined(tpls, x, y) || (x == v && y == w) || (x == w && y == v)
      {
      }
    }
  }

  lemma {:induction false} WalkReversed<T(!new)>(g: Adjacency<T>, p: seq<T>, v: T, w: T)
    requires Symmetric(g) && IsWalk(g, p, v, w)
    ensures Reaches(g, w, v)
    decreases |p|
  {
    if |p| == 1 {
      ReachesSelf(g, v);
    } else {
      assert p[1] in Adjacent(g, p[0]);
      assert IsWalk(g, p[1..], p[1], w);
      WalkReversed(g, p[1..], p[1], w);
      ReachesEdge(g, p[1], v);
      ReachesTransitive(g, w, p[1], v);
    }
  }

  lemma ReachesSymmetric<T(!new)>(g: Adjacency<T>, v: T, w: T)
    requires Symmetric(g) && Reaches(g, v, w)
    ensures Reaches(g, w, v)
  {
    var p :| IsWalk(g, p, v, w);
    WalkReversed(g, p, v, w);
  }

  // ---------------------------------------------------------------- depth-first search

  ghost predicate Distinct<T>(s: seq<T>)
  {
    forall i, j :: 0 <= i < j < |s| ==> s[i] != s[j]
  }

  /** `calls` lists s, each element once. */
  ghost predicate Lists<T(!new)>(calls: seq<T>, s: set<T>)
  {
    Distinct(calls) && forall x :: x in calls <==> x in s
  }

  lemma ListsAppend<T(!new)>(calls: seq<T>, s: set<T>, x: T)
    requires Lists(calls, s) && x !in s
    ensures Lists(calls + [x], s + {x})
  {
  }

  class Dfs<T(==, !new)> {
    const graph: Adjacency<T>
    ghost const universe: set<T>
    var marked: set<T>
    var handled: seq<T>  // the calls made to func, in order

    constructor (graph: Adjacency<T>, src: T)
      ensures forall x :: x in marked <==> Reaches(graph, src, x)
      ensures Lists(handled, marked)
    {
      this.graph := graph;
      universe := Mentioned(graph) + {src};
      marked, handled := {}, [];
      new;
      Visit(src);
      forall x | Reaches(graph, src, x)
        ensures x in marked
      {
        var p :| IsWalk(graph, p, src, x);
        WalkStaysIn(graph, marked, p, src, x);
      }
    }

    /** dfs: marks exactly the vertices the search adds, all reachable from v, and leaves no successor of a
        newly marked vertex unmarked. */
    method Visit(v: T)
      requires v in universe && v !in marked && marked <= universe && Mentioned(graph) <= universe
      requires Lists(handled, marked)
      modifies this
      ensures old(marked) <= marked <= universe && v in marked
      ensures forall x :: x in marked && x !in old(marked) ==> Reaches(graph, v, x) && Adjacent(graph, x) <= marked
      ensures Lists(handled, marked)
      decreases universe - marked
    {
      marked := marked + {v};
      handled := handled + [v];
      ReachesSelf(graph, v);
      var todo := Adjacent(graph, v);
      while todo != {}
        invariant old(marked) + {v} <= marked <= universe
        invariant todo <= Adjacent(graph, v) <= todo + marked
        invariant forall x :: x in marked && x !in old(marked) ==> Reaches(graph, v, x)
        invariant forall x :: x in marked && x !in old(marked) && x != v ==> Adjacent(graph, x) <= marked
        invariant Lists(handled, marked)
        decreases todo
      {
        var w :| w in todo;
        todo := todo - {w};
        if w !in marked {
          ghost var before := marked;
          assert w in universe by {
            assert v in graph && w in graph[v];
          }
          Visit(w);
          ReachesEdge(graph, v, w);
          forall x | x in marked && x !in before
            ensures Reaches(graph, v, x)
          {
            ReachesTransitive(graph, v, w, x);
          }
        }
      }
    }
  }

  // ---------------------------------------------------------------- breadth-first search

  /** `d` and `from` describe a search tree: every marked vertex but the source hangs below a marked vertex one
      step nearer, of which it is a successor. */
  ghost predicate Tree<T>(g: Adjacency<T>, src: T, from: map<T, T>, d: map<T, int>)
  {
    && src in d && d[src] == 0 && from.Keys == d.Keys - {src}
    && forall x :: x in from ==> from[x] in d && x in Adjacent(g, from[x]) && d[x] == d[from[x]] + 1 && d[from[x]] >= 0
  }

  /** Follows edge_to from x back to the source; the result is the walk from the source. */
  ghost function TreeWalk<T(!new)>(g: Adjacency<T>, src: T, from: map<T, T>, d: map<T, int>, x: T): (p: seq<T>)
    requires Tree(g, src, from, d) && x in d
    ensures IsWalk(g, p, src, x) && |p| == d[x] + 1
    decreases d[x]
  {
    if x == src then [src]
    else
      assert x in from;
      TreeWalk(g, src, from, d, from[x]) + [x]
  }

  /** Distances grow by at most one along the edges out of `done`. */
  ghost predicate Relaxed<T>(g: Adjacency<T>, done: set<T>, d: map<T, int>)
  {
    forall u :: u in done ==> u in d && forall w :: w in Adjacent(g, u) ==> w in d && d[w] <= d[u] + 1
  }

  /** Once every marked vertex has been processed, no walk is shorter than the recorded distance. */
  lemma {:induction false} NoShorterWalk<T(!new)>(g: Adjacency<T>, d: map<T, int>, p: seq<T>, v: T, w: T)
    requires Relaxed(g, d.Keys, d) && v in d && IsWalk(g, p, v, w)
    ensures w in d && d[w] <= d[v] + |p| - 1
    decreases |p|
  {
    if |p| > 1 {
      var p' := p[..|p| - 1];
      var u := p'[|p'| - 1];
      assert p[|p| - 2 + 1] in Adjacent(g, p[|p| - 2]);
      assert IsWalk(g, p', v, u);
      NoShorterWalk(g, d, p', v, u);
    }
  }

  lemma ShortestPaths<T(!new)>(g: Adjacency<T>, src: T, from: map<T, T>, d: map<T, int>)
    requires Tree(g, src, from, d) && Relaxed(g, d.Keys, d)
    ensures forall x :: x in d <==> Reaches(g, src, x)
    ensures forall x, p :: x in d && IsWalk(g, p, src, x) ==> d[x] <= |p| - 1
  {
    forall x, p | IsWalk(g, p, src, x)
      ensures x in d && d[x] <= |p| - 1
    {
      NoShorterWalk(g, d, p, src, x);
    }
    forall x | x in d
      ensures Reaches(g, src, x)
    {
      assert IsWalk(g, TreeWalk(g, src, from, d, x), src, x);
    }
  }

  /** The queue is ordered by distance, spans at most one step, and lies beyond what is done. */
  ghost predicate Frontier<T>(q: seq<T>, done: set<T>, d: map<T, int>)
  {
    && (forall x :: x in q ==> x in d) && done <= d.Keys
    && (forall i, j :: 0 <= i < j < |q| ==> d[q[i]] <= d[q[j]] <= d[q[0]] + 1)
    && (forall i, x :: 0 <= i < |q| && x in done ==> d[x] <= d[q[i]])
  }

  /** A successor of the vertex being processed may be hung below it and put at the end of the queue. */
  lemma WithChild<T>(g: Adjacency<T>, src: T, from: map<T, T>, d: map<T, int>, q: seq<T>, done: set<T>, node: T, w: T)
    requires Tree(g, src, from, d) && Relaxed(g, done, d) && Frontier([node] + q, done, d)
    requires w in Adjacent(g, node) && w !in d
    ensures [node] + (q + [w]) == ([node] + q) + [w]
    ensures Tree(g, src, from[w := node], d[w := d[node] + 1])
    ensures Relaxed(g, done, d[w := d[node] + 1]) && Frontier([node] + (q + [w]), done, d[w := d[node] + 1])
  {
    var q0, d' := [node] + q, d[w := d[node] + 1];
    assert q0[0] == node && node in q0;
    assert node in d && (node == src || node in from);
    var q' := q0 + [w];
    assert [node] + (q + [w]) == q';
    forall i | 0 <= i < |q0|
      ensures q'[i] in d && d'[q'[i]] == d[q0[i]] && d[node] <= d[q0[i]] <= d[node] + 1
    {
      assert q0[i] in q0;
    }
  }

  lemma WithinOne<T>(node: T, q: seq<T>, done: set<T>, d: map<T, int>)
    requires Frontier([node] + q, done, d)
    requires forall x :: x in d ==> x in done || x in [node] + q
    ensures forall w :: w in d ==> node in d && d[w] <= d[node] + 1
  {
    var q0 := [node] + q;
    assert node in q0 && q0[0] == node;
    forall w | w in d
      ensures d[w] <= d[node] + 1
    {
      if w in q0 {
        var i :| 0 <= i < |q0| && q0[i] == w;
      }
    }
  }

  /** When all successors of the front vertex are marked, it is done. */
  lemma Processed<T(!new)>(g: Adjacency<T>, node: T, q: seq<T>, done: set<T>, d: map<T, int>)
    requires Relaxed(g, done, d) && Frontier([node] + q, done, d) && Adjacent(g, node) <= d.Keys
    requires Covers(d.Keys, done, [node] + q)
    ensures Relaxed(g, done + {node}, d) && Frontier(q, done + {node}, d)
  {
    WithinOne(node, q, done, d);
    FrontierPop(node, q, done, d);
    hide Frontier;
  }

  lemma FrontierPop<T>(node: T, q: seq<T>, done: set<T>, d: map<T, int>)
    requires Frontier([node] + q, done, d)
    ensures Frontier(q, done + {node}, d)
  {
    var q0 := [node] + q;
    assert node in q0 && q0[0] == node;
    forall i | 0 <= i < |q|
      ensures q[i] in d && d[node] <= d[q[i]] <= d[node] + 1
    {
      assert q[i] == q0[i + 1];
      assert q0[i + 1] in q0;
    }
    forall i, j | 0 <= i < j < |q|
      ensures d[q[i]] <= d[q[j]] <= d[q[0]] + 1
    {
      assert d[q0[i + 1]] <= d[q0[j + 1]] && d[q0[0]] <= d[q0[1]];
    }
  }

  /** The marked vertices are those processed and those queued. */
  ghost predicate Covers<T(!new)>(marked: set<T>, done: set<T>, q: seq<T>)
  {
    forall x :: x in marked <==> x in done || x in q
  }

  lemma CoversQueued<T(!new)>(marked: set<T>, done: set<T>, node: T, q: seq<T>, w: T)
    requires Covers(marked, done, [node] + q)
    ensures Covers(marked + {w}, done, [node] + (q + [w]))
  {
  }

  lemma CoversProcessed<T(!new)>(marked: set<T>, done: set<T>, node: T, q: seq<T>)
    requires Covers(marked, done, [node] + q)
    ensures Covers(marked, done + {node}, q)
  {
    assert forall x :: x in [node] + q <==> x == node || x in q;
  }

  lemma QueuedIsMarked<T(!new)>(marked: set<T>, done: set<T>, node: T, q: seq<T>)
    requires Covers(marked, done, [node] + q)
    ensures node in marked
  {
    assert ([node] + q)[0] == node;
  }

  lemma CoversAll<T(!new)>(marked: set<T>, done: set<T>)
    requires Covers(marked, done, [])
    ensures done == marked
  {
  }

  class Bfs<T(==, !new)> {
    const graph: Adjacency<T>
    const src: T
    var marked: set<T>
    var edgeTo: map<T, T>
    var distTo: map<T, int>
    var handled: seq<T>  // the calls made to func, in order

    /** Marks exactly what the source reaches; distTo is the length of a shortest walk, and edgeTo leads back
        along one. */
    constructor (graph: Adjacency<T>, src: T)
      ensures this.graph == graph && this.src == src
      ensures forall x :: x in marked <==> Reaches(graph, src, x)
      ensures distTo.Keys == marked && Tree(graph, src, edgeTo, distTo)
      ensures forall x, p :: x in marked && IsWalk(graph, p, src, x) ==> distTo[x] <= |p| - 1
      ensures Lists(handled, marked)
    {
      this.graph, this.src := graph, src;
      marked, edgeTo, distTo, handled := {src}, map[], map[src := 0], [src];
      new;
      Search(Mentioned(graph) + {src});
      ShortestPaths(graph, src, edgeTo, distTo);
    }

    /** bfs, from the state in which only the source is marked and queued. */
    method Search(ghost universe: set<T>)
      requires src in marked && marked <= universe && Mentioned(graph) <= universe && distTo.Keys == marked
      requires Lists(handled, marked) && Tree(graph, src, edgeTo, distTo) && marked == {src}
      modifies this`marked, this`edgeTo, this`distTo, this`handled
      ensures distTo.Keys == marked && Lists(handled, marked)
      ensures Tree(graph, src, edgeTo, distTo) && Relaxed(graph, marked, distTo)
    {
      ghost var done := {};
      var q := [src];
      assert Frontier(q, done, distTo) && Relaxed(graph, done, distTo) && Covers(marked, done, q);
      hide Frontier, Tree, Relaxed, Lists, Mentioned, Covers;
      while q != []
        invariant marked <= universe && distTo.Keys == marked && Lists(handled, marked)
        invariant Tree(graph, src, edgeTo, distTo) && Relaxed(graph, done, distTo) && Frontier(q, done, distTo)
        invariant Covers(marked, done, q)
        decreases universe - marked, |q|
      {
        var node, rest := q[0], q[1..];
        assert q == [node] + rest;
        QueuedIsMarked(marked, done, node, rest);
        q := Scan(node, rest, done, universe);
        done := done + {node};
      }
      CoversAll(marked, done);
    }

    /** The inner loop: queues, marks and labels the unmarked successors of the vertex taken off the queue. */
    method Scan(node: T, q0: seq<T>, ghost done: set<T>, ghost universe: set<T>) returns (q: seq<T>)
      requires node in marked && marked <= universe && Mentioned(graph) <= universe && distTo.Keys == marked
      requires Lists(handled, marked) && Tree(graph, src, edgeTo, distTo)
      requires Relaxed(graph, done, distTo) && Frontier([node] + q0, done, distTo)
      requires Covers(marked, done, [node] + q0)
      modifies this`marked, this`edgeTo, this`distTo, this`handled
      ensures old(marked) <= marked <= universe && distTo.Keys == marked && Lists(handled, marked)
      ensures Tree(graph, src, edgeTo, distTo) && Relaxed(graph, done + {node}, distTo)
      ensures Frontier(q, done + {node}, distTo)
      ensures Covers(marked, done + {node}, q)
      ensures marked == old(marked) ==> |q| <= |q0|
    {
      hide Frontier, Tree, Relaxed, Lists, Covers, Adjacent, Mentioned;
      q := q0;
      var todo := Adjacent(graph, node);
      while todo != {}
        invariant old(marked) <= marked <= universe && distTo.Keys == marked && Lists(handled, marked)
        invariant todo <= Adjacent(graph, node) <= todo + marked
        invariant Tree(graph, src, edgeTo, distTo) && Relaxed(graph, done, distTo) && Frontier([node] + q, done, distTo)
        invariant Covers(marked, done, [node] + q)
        invariant distTo[node] == old(distTo)[node]
        invariant marked == old(marked) ==> q == q0
        decreases todo
      {
        var w :| w in todo;
        todo := todo - {w};
        if w !in marked {
          WithChild(graph, src, edgeTo, distTo, q, done, node, w);
          AdjacentMentioned(graph, node, w);
          CoversQueued(marked, done, node, q, w);
          q := q + [w];
          marked := marked + {w};
          ListsAppend(handled, marked - {w}, w);
          handled := handled + [w];
          edgeTo := edgeTo[w := node];
          distTo := distTo[w := distTo[node] + 1];
        }
      }
      assert Adjacent(graph, node) <= distTo.Keys;
      Processed(graph, node, q, done, distTo);
      CoversProcessed(marked, done, node, q);
    }
  }

  // ---------------------------------------------------------------- connected components

  /** Every labelled vertex is labelled with its whole component, and labels are shared exactly within one. */
  ghost predicate Labelled<T(!new)>(g: Adjacency<T>, id: map<T, int>, count: int)
  {
    && id.Keys <= g.Keys
    && (forall v, w :: v in id && Reaches(g, v, w) ==> w in id)
    && (forall v, w :: v in id && w in id ==> (id[v] == id[w] <==> Reaches(g, v, w)))
    && (forall v :: v in id ==> 0 <= id[v] < count)
    && (forall i :: 0 <= i < count ==> i in id.Values)
  }

  lemma ReachedIsInGraph<T(!new)>(g: Adjacency<T>, v: T, w: T)
    requires Symmetric(g) && v in g && Reaches(g, v, w)
    ensures w in g
  {
    var p :| IsWalk(g, p, v, w);
    if |p| > 1 {
      assert p[|p| - 2 + 1] in Adjacent(g, p[|p| - 2]);
    }
  }

  lemma ComponentAdded<T(!new)>(g: Adjacency<T>, id: map<T, int>, count: int, v: T, comp: set<T>, id': map<T, int>)
    requires Symmetric(g) && Labelled(g, id, count) && v in g && v !in id && count >= 0
    requires forall x :: x in comp <==> Reaches(g, v, x)
    requires id'.Keys == id.Keys + comp
    requires forall x :: x in id' ==> id'[x] == if x in comp then count else id[x]
    ensures Labelled(g, id', count + 1)
  {
    ReachesSelf(g, v);
    forall x | x in comp
      ensures x in g && x !in id && Reaches(g, x, v)
    {
      ReachedIsInGraph(g, v, x);
      ReachesSymmetric(g, v, x);
    }
    forall x, w | x in comp && Reaches(g, x, w)
      ensures w in comp
    {
      ReachesTransitive(g, v, x, w);
    }
    forall x, y | x in comp && y in comp
      ensures Reaches(g, x, y)
    {
      ReachesTransitive(g, x, v, y);
    }
    forall x, y | x in id && y in comp
      ensures !Reaches(g, x, y) && !Reaches(g, y, x)
    {
      if Reaches(g, y, x) {
        ReachesSymmetric(g, y, x);
      }
    }
    forall i | 0 <= i < count + 1
      ensures i in id'.Values
    {
      if i == count {
        assert v in id' && id'[v] == count;
      } else {
        assert i in id.Values;
        var x :| x in id && id[x] == i;
        assert x in id' && id'[x] == i;
      }
    }
  }

  class ConnectedComponents<T(==, !new)> {
    ghost const graph: Adjacency<T>
    var count: int
    var identifier: map<T, int>
    var marked: set<T>

    /** Two vertices get the same id exactly when a path joins them; ids are 0..count - 1, all used, so count is
        the number of components. */
    constructor (graph: Adjacency<T>)
      requires Symmetric(graph)
      ensures this.graph == graph && Solved() && marked == graph.Keys
      ensures forall v, w :: v in graph && w in graph ==> (identifier[v] == identifier[w] <==> Reaches(graph, v, w))
      ensures forall i :: 0 <= i < count <==> i in identifier.Values
    {
      this.graph := graph;
      count, identifier, marked := 0, map[], {};
      new;
      var vertexes := graph.Keys;
      while vertexes != {}
        invariant Labelled(graph, identifier, count) && count >= 0 && identifier.Keys == marked
        invariant vertexes <= graph.Keys <= marked + vertexes
        decreases vertexes
      {
        var v :| v in vertexes;
        vertexes := vertexes - {v};
        if v !in marked {
          var solver := new Dfs<T>(graph, v);
          ghost var before := identifier;
          HandleAll(solver.handled);
          ReachesSelf(graph, v);
          ComponentAdded(graph, before, count, v, solver.marked, identifier);
          count := count + 1;
        }
      }
    }

    /** handler_lambda, called for each vertex the search visits. */
    method HandleAll(calls: seq<T>)
      modifies this`identifier, this`marked
      requires identifier.Keys == marked
      ensures forall x :: x in identifier <==> x in old(identifier) || x in calls
      ensures forall x :: x in identifier ==> identifier[x] == if x in calls then count else old(identifier)[x]
      ensures identifier.Keys == marked
    {
      for i := 0 to |calls|
        invariant forall x :: x in identifier <==> x in old(identifier) || x in calls[..i]
        invariant forall x :: x in identifier ==> identifier[x] == if x in calls[..i] then count else old(identifier)[x]
        invariant identifier.Keys == marked
      {
        assert calls[..i + 1] == calls[..i] + [calls[i]];
        identifier := identifier[calls[i] := count];
        marked := marked + {calls[i]};
      }
      assert calls[..|calls|] == calls;
    }

    /** The ids tell the components of the graph apart. */
    ghost predicate Solved()
      reads this
    {
      && identifier.Keys == graph.Keys
      && (forall v :: v in graph ==> 0 <= identifier[v] < count)
      && forall v, w :: v in graph && w in graph ==> (identifier[v] == identifier[w] <==> Reaches(graph, v, w))
    }

    /** The answer is -1 exactly for a vertex the graph does not have; otherwise the vertices with this id are exactly
        those that v reaches. */
    method Id(v: T) returns (r: int)
      requires Solved()
      ensures r == -1 <==> v !in graph
      ensures forall w :: w in graph ==> (identifier[w] == r <==> v in graph && Reaches(graph, v, w))
    {
      r := if v in identifier then identifier[v] else -1;
    }
  }
}