/**
  The dependency graph and its depth-first search for cycles.
 */
module Dag {

  type Vertex = string

  datatype Error = NoError | ErrVertexExist | ErrVertexTailNotExist | ErrVertexHeadNotExist | ErrEdgeExist | ErrCycleExist

  type Edges = map<Vertex, seq<Vertex>>

  function Successors(adj: Edges, u: Vertex): seq<Vertex> {
    if u in adj then adj[u] else []
  }

  /** A walk: each vertex is a successor of the one before it. */
  ghost predicate Walk(adj: Edges, p: seq<Vertex>) {
    p != [] && forall i :: 0 <= i < |p| - 1 ==> p[i + 1] in Successors(adj, p[i])
  }

  ghost predicate Reaches(adj: Edges, u: Vertex, v: Vertex) {
    exists p :: Walk(adj, p) && p[0] == u && p[|p| - 1] == v
  }

  /** v lies on a cycle: a walk of at least one edge leads from v back to v. */
  ghost predicate OnCycle(adj: Edges, v: Vertex) {
    exists p :: Walk(adj, p) && |p| >= 2 && p[0] == v && p[|p| - 1] == v
  }

  ghost predicate CycleReachable(adj: Edges, u: Vertex) {
    exists v :: Reaches(adj, u, v) && OnCycle(adj, v)
  }

  /** A walk from u whose last vertex is in `path` or has been met before on the walk. */
  ghost predicate Trips(adj: Edges, path: set<Vertex>, p: seq<Vertex>) {
    && Walk(adj, p) && |p| >= 2
    && (p[|p| - 1] in path || p[|p| - 1] in p[..|p| - 1])
  }

  /** What the search finds from u with the vertices of `path` marked. */
  ghost predicate Finds(adj: Edges, path: set<Vertex>, u: Vertex) {
    exists p :: Trips(adj, path, p) && p[0] == u
  }

  // ----- The search finds a cycle exactly when one is reachable -----

  lemma WalkTail(adj: Edges, p: seq<Vertex>)
    requires Walk(adj, p) && |p| >= 2
    ensures Walk(adj, p[1..]) && p[1] in Successors(adj, p[0])
  {
  }

  lemma WalkCons(adj: Edges, u: Vertex, p: seq<Vertex>)
    requires Walk(adj, p) && p[0] in Successors(adj, u)
    ensures Walk(adj, [u] + p)
  {
  }

  /** One step of the search: u finds something when one of its successors is marked, u itself
      included, or finds something with u marked. */
  lemma FindsStep(adj: Edges, path: set<Vertex>, u: Vertex)
    ensures Finds(adj, path, u) <==>
            exists w :: w in Successors(adj, u) && (w in path + {u} || Finds(adj, path + {u}, w))
  {
    if Finds(adj, path, u) {
      var p :| Trips(adj, path, p) && p[0] == u;
      WalkTail(adj, p);
      var w, q := p[1], p[1..];
      if w !in path + {u} {
        var last := p[|p| - 1];
        assert |p| > 2 && q[|q| - 1] == last && q[0] == w;
        assert last in p[..|p| - 1] ==> last == u || last in q[..|q| - 1] by {
          assert p[..|p| - 1] == [u] + q[..|q| - 1];
        }
        assert Trips(adj, path + {u}, q);
      }
      assert w in Successors(adj, u) && (w in path + {u} || Finds(adj, path + {u}, w));
    }
    if w :| w in Successors(adj, u) && (w in path + {u} || Finds(adj, path + {u}, w)) {
      if w in path + {u} {
        WalkCons(adj, u, [w]);
        assert [u] + [w] == [u, w] && [u, w][..1] == [u];
        assert Trips(adj, path, [u, w]);
      } else {
        var q :| Trips(adj, path + {u}, q) && q[0] == w;
        WalkCons(adj, u, q);
        var p := [u] + q;
        assert p[|p| - 1] == q[|q| - 1] && p[..|p| - 1] == [u] + q[..|q| - 1];
        assert Trips(adj, path, p);
      }
    }
  }

  lemma WalkSlice(adj: Edges, p: seq<Vertex>, lo: nat, hi: nat)
    requires Walk(adj, p) && lo < hi <= |p|
    ensures Walk(adj, p[lo..hi])
  {
  }

  lemma WalkJoin(adj: Edges, p: seq<Vertex>, q: seq<Vertex>)
    requires Walk(adj, p) && Walk(adj, q) && p[|p| - 1] == q[0]
    ensures Walk(adj, p + q[1..])
  {
  }

  lemma TripIsCycle(adj: Edges, p: seq<Vertex>)
    requires Trips(adj, {}, p)
    ensures CycleReachable(adj, p[0])
  {
    var last := p[|p| - 1];
    var i :| 0 <= i < |p| - 1 && p[i] == last;
    WalkSlice(adj, p, i, |p|);
    WalkSlice(adj, p, 0, i + 1);
    hide Walk;
    var c, r := p[i..], p[0..i + 1];
    assert c[0] == last && c[|c| - 1] == last && |c| >= 2;
    assert r[0] == p[0] && r[|r| - 1] == last;
    assert OnCycle(adj, last) && Reaches(adj, p[0], last);
  }

  lemma CycleIsTrip(adj: Edges, u: Vertex, v: Vertex)
    requires Reaches(adj, u, v) && OnCycle(adj, v)
    ensures Finds(adj, {}, u)
  {
    var r :| Walk(adj, r) && r[0] == u && r[|r| - 1] == v;
    var c :| Walk(adj, c) && |c| >= 2 && c[0] == v && c[|c| - 1] == v;
    WalkJoin(adj, r, c);
    var p := r + c[1..];
    assert p[|p| - 1] == v && p[|r| - 1] == v && |r| - 1 < |p| - 1;
    assert p[..|p| - 1][|r| - 1] == v;
    assert Trips(adj, {}, p) && p[0] == u;
  }

  /** With nothing marked, the search finds something exactly when a cycle is reachable. */
  lemma FindsCycle(adj: Edges, u: Vertex)
    ensures Finds(adj, {}, u) <==> CycleReachable(adj, u)
  {
    hide Walk, Reaches, OnCycle;
    if Finds(adj, {}, u) {
      var p :| Trips(adj, {}, p) && p[0] == u;
      TripIsCycle(adj, p);
    }
    if CycleReachable(adj, u) {
      var v :| Reaches(adj, u, v) && OnCycle(adj, v);
      CycleIsTrip(adj, u, v);
    }
  }

  /** Some marked vertex can be reached from u. */
  ghost predicate MeetsMark(adj: Edges, path: set<Vertex>, u: Vertex) {
    exists v :: v in path && Reaches(adj, u, v)
  }

  lemma TripMeets(adj: Edges, path: set<Vertex>, p: seq<Vertex>)
    requires Trips(adj, path, p)
    ensures MeetsMark(adj, path, p[0]) || CycleReachable(adj, p[0])
  {
    hide CycleReachable, Walk;
    var last := p[|p| - 1];
    if last in path {
      assert Reaches(adj, p[0], last);
    } else {
      assert Trips(adj, {}, p);
      TripIsCycle(adj, p);
    }
  }

  lemma MarkIsTrip(adj: Edges, path: set<Vertex>, u: Vertex, v: Vertex)
    requires u !in path && v in path && Reaches(adj, u, v)
    ensures Finds(adj, path, u)
  {
    var p :| Walk(adj, p) && p[0] == u && p[|p| - 1] == v;
    assert Trips(adj, path, p);
  }

  /** From an unmarked vertex the search finds something exactly when a marked vertex or a cycle is
      reachable. */
  lemma FindsMarked(adj: Edges, path: set<Vertex>, u: Vertex)
    requires u !in path
    ensures Finds(adj, path, u) <==> MeetsMark(adj, path, u) || CycleReachable(adj, u)
  {
    hide Walk, Reaches, OnCycle, CycleReachable;
    if Finds(adj, path, u) {
      var p :| Trips(adj, path, p) && p[0] == u;
      TripMeets(adj, path, p);
    }
    if v :| v in path && Reaches(adj, u, v) {
      MarkIsTrip(adj, path, u, v);
    }
    if CycleReachable(adj, u) {
      FindsCycle(adj, u);
      var p :| Trips(adj, {}, p) && p[0] == u;
      assert Trips(adj, path, p);
    }
  }

  // ----- The path a search leaves marked -----

  function Elements(p: seq<Vertex>): set<Vertex> {
    set v | v in p
  }

  /** The path of a search that trips: a walk from u through vertices that were not marked, none of
      them twice, whose last vertex has a successor that is marked or on the path. */
  ghost predicate Trail(adj: Edges, path: set<Vertex>, u: Vertex, p: seq<Vertex>) {
    && Walk(adj, p) && p[0] == u
    && (forall i, j :: 0 <= i < j < |p| ==> p[i] != p[j])
    && Elements(p) !! path
    && exists w :: w in Successors(adj, p[|p| - 1]) && w in path + Elements(p)
  }

  lemma TrailStart(adj: Edges, path: set<Vertex>, u: Vertex, p: seq<Vertex>)
    requires Trail(adj, path, u, p)
    ensures p != [] && p[0] == u && u in Elements(p)
  {
  }

  lemma TrailHere(adj: Edges, path: set<Vertex>, u: Vertex, w: Vertex)
    requires u !in path && w in Successors(adj, u) && w in path + {u}
    ensures Trail(adj, path, u, [u]) && Elements([u]) == {u}
  {
    assert Elements([u]) == {u};
    assert w in path + Elements([u]);
  }

  lemma TrailCons(adj: Edges, path: set<Vertex>, u: Vertex, q: seq<Vertex>)
    requires u !in path && q != [] && q[0] in Successors(adj, u) && Trail(adj, path + {u}, q[0], q)
    ensures Trail(adj, path, u, [u] + q) && Elements([u] + q) == {u} + Elements(q)
  {
    var p := [u] + q;
    assert Elements(p) == {u} + Elements(q);
    WalkCons(adj, u, q);
    assert p[|p| - 1] == q[|q| - 1];
    assert u !in Elements(q);
    var w :| w in Successors(adj, q[|q| - 1]) && w in path + {u} + Elements(q);
    assert w in path + Elements(p);
  }

  // ----- The graph -----

  /** One of the vertices of ws is marked or finds something. */
  ghost predicate Hits(adj: Edges, path: set<Vertex>, ws: seq<Vertex>) {
    exists w :: w in ws && (w in path || Finds(adj, path, w))
  }

  lemma FindsAmong(adj: Edges, path: set<Vertex>, u: Vertex)
    ensures Finds(adj, path, u) <==> Hits(adj, path + {u}, Successors(adj, u))
    ensures !Hits(adj, path + {u}, Successors(adj, u)[..0])
  {
    hide Finds;
    FindsStep(adj, path, u);
  }

  /** Looking at one more vertex; a hit among the first ones is a hit among all. */
  lemma HitsNext(adj: Edges, path: set<Vertex>, ws: seq<Vertex>, i: nat)
    requires i < |ws|
    ensures Hits(adj, path, ws[..i + 1]) <==> Hits(adj, path, ws[..i]) || ws[i] in path || Finds(adj, path, ws[i])
    ensures ws[i] in path || Finds(adj, path, ws[i]) ==> Hits(adj, path, ws)
  {
    hide Finds;
    assert ws[..i + 1] == ws[..i] + [ws[i]];
  }

  class Graph {
    var nodes: seq<Vertex>
    var adjacency: Edges
    var visited: set<Vertex>

    constructor ()
      ensures nodes == [] && adjacency == map[] && visited == {}
    {
      nodes, adjacency, visited := [], map[], {};
    }

    method AddVertex(u: Vertex) returns (e: Error)
      modifies this`nodes
      ensures e == if u in old(nodes) then ErrVertexExist else NoError
      ensures nodes == if u in old(nodes) then old(nodes) else old(nodes) + [u]
    {
      for i := 0 to |nodes|
        invariant nodes == old(nodes)
        invariant u !in nodes[..i]
      {
        if nodes[i] == u {
          return ErrVertexExist;
        }
      }
      assert nodes[..|nodes|] == nodes;
      nodes := nodes + [u];
      return NoError;
    }

    /** Looks for the two vertices but only ever notes that they are absent: every call fails here,
        and the part of the method that would add the edge is never reached. */
    method AddEdge(u: Vertex, v: Vertex) returns (e: Error)
      ensures e == ErrVertexHeadNotExist
    {
      var isExistHead, isExistTail := false, false;
      for i := 0 to |nodes|
        invariant !isExistHead && !isExistTail
      {
        if u == nodes[i] {
          isExistTail := false;
        }
        if v == nodes[i] {
          isExistHead := false;
        }
      }
      if !isExistHead {
        return ErrVertexHeadNotExist;
      }
      assert false;
    }

    /** Every vertex the search can meet from u. */
    ghost function Universe(u: Vertex): set<Vertex>
      reads this`adjacency
    {
      {u} + adjacency.Keys + set w, v | w in adjacency.Keys && v in adjacency[w] :: v
    }

    /** Depth-first search from a vertex that is not on the current path, which `visited` marks. It
        returns whether the search trips; when it does, its path stays marked, otherwise the marks are
        as before. */
    method HasCycle(node: Vertex) returns (found: bool, ghost trail: seq<Vertex>)
      requires node !in visited
      modifies this`visited
      ensures found <==> Finds(adjacency, old(visited), node)
      ensures !found ==> visited == old(visited)
      ensures found ==> Trail(adjacency, old(visited), node, trail) && visited == old(visited) + Elements(trail)
      decreases |Universe(node) - visited|
    {
      hide Finds, Universe, Hits, Trail, Elements;
      ghost var path := visited;
      visited := visited + {node};
      ghost var marked := visited;
      var out := Successors(adjacency, node);
      FindsAmong(adjacency, path, node);
      for i := 0 to |out|
        invariant visited == marked && !Hits(adjacency, marked, out[..i])
      {
        var neighbor := out[i];
        HitsNext(adjacency, marked, out, i);
        if neighbor in visited {
          TrailHere(adjacency, path, node, neighbor);
          return true, [node];
        }
        SmallerUniverse(node, neighbor, path);
        var deeper, rest := HasCycle(neighbor);
        if deeper {
          assert rest != [] && rest[0] == neighbor by {
            TrailStart(adjacency, marked, neighbor, rest);
          }
          TrailCons(adjacency, path, node, rest);
          return true, [node] + rest;
        }
      }
      assert out[..|out|] == out;
      visited := visited - {node};
      assert visited == path;
      return false, [];
    }

    lemma SmallerUniverse(node: Vertex, neighbor: Vertex, path: set<Vertex>)
      requires neighbor in Successors(adjacency, node) && node !in path
      ensures |Universe(neighbor) - (path + {node})| < |Universe(node) - path|
    {
      var a, b := Universe(neighbor) - (path + {node}), Universe(node) - path;
      assert neighbor in Universe(node);
      assert a <= b && node in b && node !in a;
      Strict(a, b, node);
    }

    static lemma Strict(a: set<Vertex>, b: set<Vertex>, x: Vertex)
      requires a <= b && x in b && x !in a
      ensures |a| < |b|
    {
      assert b == a + (b - a);
      assert x in b - a;
      assert |b| == |a| + |b - a|;
    }

    /** Validate with any marks: each listed vertex that is not marked is searched with the same marks. */
    method Validate() returns (e: Error, ghost trail: seq<Vertex>)
      modifies this`visited
      ensures e == NoError || e == ErrCycleExist
      ensures e == ErrCycleExist <==> exists n :: n in nodes && n !in old(visited) && Finds(adjacency, old(visited), n)
      ensures old(visited) == {} ==> (e == ErrCycleExist <==> exists n :: n in nodes && CycleReachable(adjacency, n))
      ensures e == NoError ==> visited == old(visited)
      ensures e == ErrCycleExist ==>
                && trail != [] && trail[0] in nodes && Trail(adjacency, old(visited), trail[0], trail)
                && visited == old(visited) + Elements(trail)
    {
      forall n ensures Finds(adjacency, {}, n) <==> CycleReachable(adjacency, n) {
        FindsCycle(adjacency, n);
      }
      for i := 0 to |nodes|
        invariant visited == old(visited)
        invariant forall k :: 0 <= k < i ==> nodes[k] in old(visited) || !Finds(adjacency, old(visited), nodes[k])
      {
        if nodes[i] !in visited {
          var found, rest := HasCycle(nodes[i]);
          if found {
            return ErrCycleExist, rest;
          }
        }
      }
      return NoError, [];
    }
  }

  /** n is on the path the first call marked, or no vertex of that path and no cycle can be reached
      from it. */
  ghost predicate Missed(adj: Edges, trail: seq<Vertex>, n: Vertex) {
    n in trail || (!MeetsMark(adj, Elements(trail), n) && !CycleReachable(adj, n))
  }

  /** A search that finds a cycle leaves its path marked, and a second call takes the marks for
      vertices it need not search. It misses the cycle exactly when every listed vertex is on that
      path or leads neither to it nor to a cycle. */
  method ValidateTwice(g: Graph) returns (first: Error, second: Error, ghost trail: seq<Vertex>)
    requires g.visited == {}
    modifies g`visited
    ensures first == ErrCycleExist <==> exists n :: n in g.nodes && CycleReachable(g.adjacency, n)
    ensures first == NoError ==> second == NoError
    ensures first == ErrCycleExist ==>
              && trail != [] && trail[0] in g.nodes && Trail(g.adjacency, {}, trail[0], trail)
              && (second == NoError <==> forall n :: n in g.nodes ==> Missed(g.adjacency, trail, n))
  {
    hide Finds, Trail, MeetsMark, CycleReachable;
    first, trail := g.Validate();
    if first == ErrCycleExist {
      assert g.visited == Elements(trail);
      forall n | n !in Elements(trail)
        ensures Finds(g.adjacency, Elements(trail), n) <==> !Missed(g.adjacency, trail, n)
      {
        FindsMarked(g.adjacency, Elements(trail), n);
      }
    }
    var e, _ := g.Validate();
    second := e;
  }

  lemma LoopIsCycle(adj: Edges, u: Vertex)
    requires u in Successors(adj, u)
    ensures CycleReachable(adj, u)
  {
    assert Walk(adj, [u]) && Walk(adj, [u, u]);
    assert Reaches(adj, u, u) && OnCycle(adj, u);
  }

  /** The single vertex with an edge to itself: the second call reports no cycle. */
  method SecondValidateForgets() returns (first: Error, second: Error)
    ensures first == ErrCycleExist && second == NoError
  {
    var g := new Graph();
    g.nodes, g.adjacency := ["a"], map["a" := ["a"]];
    LoopIsCycle(g.adjacency, "a");
    hide CycleReachable, Trail, MeetsMark;
    ghost var trail;
    first, second, trail := ValidateTwice(g);
    assert "a" in g.nodes && CycleReachable(g.adjacency, "a");
    assert trail[0] == "a";
    assert forall n :: n in g.nodes ==> n == "a" && n in trail;
  }
}
