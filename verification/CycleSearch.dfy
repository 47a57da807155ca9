// White/gray/black depth-first search for a directed cycle.
module CycleSearch {

  type Node = string
  type Edge = (Node, Node)

  ghost predicate IsWalk(w: seq<Node>, edges: set<Edge>) {
    forall i :: 0 <= i < |w| - 1 ==> (w[i], w[i + 1]) in edges
  }

  ghost predicate IsCycle(w: seq<Node>, edges: set<Edge>) {
    |w| >= 2 && w[0] == w[|w| - 1] && IsWalk(w, edges)
  }

  ghost predicate Cyclic(edges: set<Edge>) {
    exists w :: IsCycle(w, edges)
  }

  function NodesOf(edges: set<Edge>): set<Node> {
    (set e | e in edges :: e.0) + (set e | e in edges :: e.1)
  }

  // An order of finishing: every edge out of a listed node leads to a node listed earlier.
  ghost predicate Finished(order: seq<Node>, edges: set<Edge>) {
    forall i, v :: 0 <= i < |order| && (order[i], v) in edges ==> v in order[..i]
  }

  lemma WalkTail(w: seq<Node>, edges: set<Edge>)
    requires |w| >= 2 && IsWalk(w, edges)
    ensures IsWalk(w[1..], edges)
  {
    forall i | 0 <= i < |w[1..]| - 1
      ensures (w[1..][i], w[1..][i + 1]) in edges
    {
      assert (w[i + 1], w[i + 2]) in edges;
    }
  }

  // Along a walk inside such an order, positions only go down.
  lemma {:induction false} WalkDescends(order: seq<Node>, edges: set<Edge>, w: seq<Node>, k: nat) returns (i: nat)
    requires Finished(order, edges) && |w| >= 1 && IsWalk(w, edges) && k < |order| && order[k] == w[0]
    ensures i <= k && order[i] == w[|w| - 1] && (|w| >= 2 ==> i < k)
    decreases |w|
  {
    if |w| == 1 {
      i := k;
    } else {
      assert (w[0], w[1]) in edges;
      var j :| 0 <= j < k && order[..k][j] == w[1];
      WalkTail(w, edges);
      i := WalkDescends(order, edges, w[1..], j);
    }
  }

  lemma {:induction false} NoCycleFrom(order: seq<Node>, edges: set<Edge>, w: seq<Node>, k: nat)
    requires Finished(order, edges) && IsCycle(w, edges) && k < |order| && order[k] == w[0]
    ensures false
    decreases k
  {
    var i := WalkDescends(order, edges, w, k);
    NoCycleFrom(order, edges, w, i);
  }

  lemma FinishedIsAcyclic(order: seq<Node>, edges: set<Edge>)
    requires Finished(order, edges) && NodesOf(edges) <= set n | n in order
    ensures !Cyclic(edges)
  {
    if w :| IsCycle(w, edges) {
      assert (w[0], w[1]) in edges;
      assert w[0] in NodesOf(edges);
      var k :| 0 <= k < |order| && order[k] == w[0];
      NoCycleFrom(order, edges, w, k);
    }
  }

  // A graph whose edges all raise a rank has no cycle.
  lemma {:induction false} RankRises(edges: set<Edge>, rank: Node -> int, w: seq<Node>)
    requires forall e :: e in edges ==> rank(e.0) < rank(e.1)
    requires |w| >= 2 && IsWalk(w, edges)
    ensures rank(w[0]) < rank(w[|w| - 1])
    decreases |w|
  {
    assert (w[0], w[1]) in edges;
    if |w| > 2 {
      WalkTail(w, edges);
      RankRises(edges, rank, w[1..]);
    }
  }

  lemma RankedIsAcyclic(edges: set<Edge>, rank: Node -> int)
    requires forall e :: e in edges ==> rank(e.0) < rank(e.1)
    ensures !Cyclic(edges)
  {
    if w :| IsCycle(w, edges) {
      RankRises(edges, rank, w);
      assert false;
    }
  }

  datatype Color = Gray | Black   // a node without a color is white

  // The adjacency lists hold exactly the edges.
  ghost predicate Lists(adj: map<Node, seq<Node>>, edges: set<Edge>) {
    forall u, v :: (u, v) in edges <==> u in adj && v in adj[u]
  }

  method Adjacency(edges: set<Edge>) returns (adj: map<Node, seq<Node>>)
    ensures Lists(adj, edges)
  {
    adj := map[];
    var todo := edges;
    while todo != {}
      invariant todo <= edges
      invariant Lists(adj, edges - todo)
      decreases |todo|
    {
      var e :| e in todo;
      var (f, t) := e;
      ghost var before := adj;
      var l := if f in adj then adj[f] else [];
      adj := adj[f := l + [t]];
      forall u, v
        ensures (u, v) in edges - (todo - {e}) <==> u in adj && v in adj[u]
      {
        assert (u, v) in edges - todo <==> u in before && v in before[u];
        assert (u, v) in edges - (todo - {e}) <==> (u, v) in edges - todo || (u, v) == e;
      }
      todo := todo - {e};
    }
    assert edges - todo == edges;
  }

  class DepthFirst {
    const adj: map<Node, seq<Node>>
    var color: map<Node, Color>
    ghost var order: seq<Node>   // black nodes, in order of finishing

    constructor (adj: map<Node, seq<Node>>)
      ensures this.adj == adj && color == map[] && order == []
    {
      this.adj := adj;
      color := map[];
      order := [];
    }

    ghost predicate Blackened(edges: set<Edge>)
      reads this
    {
      && Lists(adj, edges)
      && Finished(order, edges)
      && (forall n :: n in order <==> n in color && color[n] == Black)
      && color.Keys <= NodesOf(edges)
    }

    ghost predicate IsGray(n: Node)
      reads this
    {
      n in color && color[n] == Gray
    }

    // The gray nodes are exactly those on the path from the root.
    ghost predicate OnPath(path: seq<Node>)
      reads this
    {
      forall n :: IsGray(n) <==> n in path
    }

    method Enter(u: Node, ghost edges: set<Edge>, ghost path: seq<Node>)
      requires Blackened(edges) && OnPath(path) && u in NodesOf(edges) && u !in color
      modifies this`color
      ensures Blackened(edges) && OnPath(path + [u]) && u !in path && color.Keys == old(color.Keys) + {u}
    {
      assert !IsGray(u);
      color := color[u := Gray];
      forall n
        ensures IsGray(n) <==> n in path + [u]
      {
        assert n in path + [u] <==> n in path || n == u;
        assert old(IsGray(n)) <==> n in path;
      }
    }

    method Blacken(u: Node, ghost edges: set<Edge>, ghost path: seq<Node>)
      requires Blackened(edges) && OnPath(path + [u]) && u !in path && Finished(order + [u], edges)
      requires u in NodesOf(edges)
      modifies this`color, this`order
      ensures Blackened(edges) && OnPath(path) && order == old(order) + [u] && color.Keys == old(color.Keys) + {u}
    {
      color := color[u := Black];
      order := order + [u];
      forall n
        ensures IsGray(n) <==> n in path
      {
        assert n in path + [u] <==> n in path || n == u;
        assert old(IsGray(n)) <==> n in path + [u];
      }
    }

    method Visit(u: Node, ghost edges: set<Edge>, ghost path: seq<Node>) returns (found: bool)
      requires Blackened(edges) && OnPath(path) && IsWalk(path + [u], edges)
      requires u in NodesOf(edges) && u !in color
      modifies this`color, this`order
      ensures found ==> Cyclic(edges)
      ensures !found ==> Blackened(edges) && OnPath(path) && u in order
      ensures !found ==> (forall n :: n in old(order) ==> n in order) && old(color.Keys) <= color.Keys
      decreases |NodesOf(edges) - color.Keys|
    {
      hide Finished, IsWalk, Cyclic, NodesOf;
      ghost var here := path + [u];
      Enter(u, edges, path);
      var next := if u in adj then adj[u] else [];
      for i := 0 to |next|
        invariant Blackened(edges) && OnPath(here)
        invariant old(color.Keys) + {u} <= color.Keys
        invariant forall n :: n in old(order) ==> n in order
        invariant forall j :: 0 <= j < i ==> next[j] in order
      {
        var v := next[i];
        assert (u, v) in edges;
        if v in color && color[v] == Gray {
          ClosesCycle(here, v, edges);
          return true;
        }
        if v !in color {
          ExtendsWalk(here, v, edges);
          FewerWhite(NodesOf(edges), old(color.Keys), color.Keys, u);
          var below := Visit(v, edges, here);
          if below {
            return true;
          }
        }
      }
      Finishes(order, u, edges, next);
      Blacken(u, edges, path);
      found := false;
    }
  }

  lemma FewerWhite(nodes: set<Node>, before: set<Node>, after: set<Node>, u: Node)
    requires u in nodes && u !in before && before + {u} <= after
    ensures |nodes - after| < |nodes - before|
  {
    var was, now := nodes - before, nodes - after;
    assert u in was && u !in now;
    assert was == now + (was - now);
    assert |was - now| > 0;
  }

  lemma ClosesCycle(path: seq<Node>, v: Node, edges: set<Edge>)
    requires IsWalk(path, edges) && path != [] && v in path && (path[|path| - 1], v) in edges
    ensures Cyclic(edges)
  {
    var k :| 0 <= k < |path| && path[k] == v;
    var w := path[k..] + [v];
    assert IsCycle(w, edges);
  }

  lemma ExtendsWalk(path: seq<Node>, v: Node, edges: set<Edge>)
    requires IsWalk(path, edges) && path != [] && (path[|path| - 1], v) in edges
    ensures IsWalk(path + [v], edges) && v in NodesOf(edges)
  {
    var e := (path[|path| - 1], v);
    assert e in edges && e.1 == v;
  }

  lemma Finishes(order: seq<Node>, u: Node, edges: set<Edge>, next: seq<Node>)
    requires Finished(order, edges)
    requires forall v :: (u, v) in edges ==> v in next
    requires forall j :: 0 <= j < |next| ==> next[j] in order
    ensures Finished(order + [u], edges)
  {
    var more := order + [u];
    forall i, v | 0 <= i < |more| && (more[i], v) in edges
      ensures v in more[..i]
    {
      assert more[..i] == order[..i];
    }
  }

  lemma NothingFinished(edges: set<Edge>)
    ensures Finished([], edges)
  {}

  lemma LoneWalk(n: Node, edges: set<Edge>)
    ensures IsWalk([n], edges)
  {}

  // The search reports a cycle exactly when the edges contain one, self-loops included.
  method HasCycle(edges: set<Edge>) returns (found: bool)
    ensures found <==> Cyclic(edges)
  {
    hide Finished, IsWalk, Cyclic, NodesOf;
    var adj := Adjacency(edges);
    NothingFinished(edges);
    var dfs := new DepthFirst(adj);
    var nodes := NodesOf(edges);
    var todo := nodes;
    while todo != {}
      invariant todo <= nodes
      invariant fresh(dfs) && dfs.adj == adj
      invariant dfs.Blackened(edges) && dfs.OnPath([])
      invariant forall n :: n in nodes - todo ==> n in dfs.order
      decreases |todo|
    {
      var n :| n in todo;
      if n !in dfs.color {
        assert [] + [n] == [n];
        LoneWalk(n, edges);
        found := dfs.Visit(n, edges, []);
        if found {
          return;
        }
      } else {
        assert !dfs.IsGray(n);
      }
      todo := todo - {n};
    }
    FinishedIsAcyclic(dfs.order, edges);
    found := false;
  }
}
