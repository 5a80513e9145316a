/** `UnitManager.shortest_path`: a depth-first search over the registry's
    edges that never reuses an edge and keeps the shortest complete path. */
module Paths {
  import opened Results
  import opened Registry

  /** `q` walks from node `s` to node `e`: each edge is listed under the
      node the walk is at, and the walk continues where the edge ends. */
  predicate Chain(m: Manager, s: string, e: string, q: seq<nat>)
    decreases |q|
  {
    if |q| == 0 then s == e
    else s in m.items && q[0] in m.items[s] && q[0] < |m.edges| && Chain(m, m.edges[q[0]].other, e, q[1..])
  }

  /** No edge used twice. */
  predicate Simple(q: seq<nat>) {
    forall i, j :: 0 <= i < j < |q| ==> q[i] != q[j]
  }

  /** No edge of `q` is already on `path`. */
  predicate Avoids(q: seq<nat>, path: seq<nat>) {
    forall k :: 0 <= k < |q| ==> q[k] !in path
  }

  /** The edges the search may still take. */
  function Unused(m: Manager, path: seq<nat>): set<nat> {
    set i: nat | i < |m.edges| && i !in path
  }

  lemma UnusedShrinks(m: Manager, path: seq<nat>, node: nat)
    requires node < |m.edges| && node !in path
    ensures Unused(m, path + [node]) < Unused(m, path)
  {
    assert node in Unused(m, path) && node !in Unused(m, path + [node]);
  }

  /** The recursive call `shortest_path(start, end, path)` once both ends
      are known nodes: `path` itself when `start == end`, otherwise the
      shortest result over the outgoing edges of `start` that are not on
      `path`. A result extends `path` by a simple walk to `end` that
      avoids `path`. */
  function Search(m: Manager, s: string, e: string, path: seq<nat>): (r: Option<seq<nat>>)
    requires Wired(m) && s in m.items
    ensures s == e ==> r == Some(path)
    ensures r.Some? ==>
              && |path| <= |r.value| && r.value[..|path|] == path
              && Chain(m, s, e, r.value[|path|..])
              && Simple(r.value[|path|..]) && Avoids(r.value[|path|..], path)
    decreases Unused(m, path), 1, 0
  {
    if s == e then Some(path) else Explore(m, s, e, path, 0, None)
  }

  /** The loop over `items[s][i..]`, carrying the shortest path found so
      far in `best`. The result is `best` or a path found here, and it is
      never longer than `best`. */
  function Explore(m: Manager, s: string, e: string, path: seq<nat>, i: nat, best: Option<seq<nat>>): (r: Option<seq<nat>>)
    requires Wired(m) && s in m.items && i <= |m.items[s]|
    ensures r.Some? ==>
              || r == best
              || (&& |path| <= |r.value| && r.value[..|path|] == path
                  && Chain(m, s, e, r.value[|path|..])
                  && Simple(r.value[|path|..]) && Avoids(r.value[|path|..], path))
    ensures best.Some? ==> r.Some? && |r.value| <= |best.value|
    decreases Unused(m, path), 0, |m.items[s]| - i
  {
    if i == |m.items[s]| then best
    else
      var node := m.items[s][i];
      if node in path then Explore(m, s, e, path, i + 1, best)
      else
        UnusedShrinks(m, path, node);
        var next := m.edges[node].other;
        var found := Search(m, next, e, path + [node]);
        assert found.Some? ==> found.value[..|path|] == path && found.value[|path|..] == [node] + found.value[|path| + 1..] by {
          if found.Some? {
            assert found.value[..|path| + 1] == path + [node];
          }
        }
        var best' := if found.Some? && (best.None? || |found.value| < |best.value|) then found else best;
        Explore(m, s, e, path, i + 1, best')
  }

  /** Any simple walk from `s` to `e` that avoids `path` bounds the length
      of what the search returns. */
  lemma {:induction false} SearchMinimal(m: Manager, s: string, e: string, path: seq<nat>, q: seq<nat>)
    requires Wired(m) && s in m.items
    requires Chain(m, s, e, q) && Simple(q) && Avoids(q, path)
    ensures Search(m, s, e, path).Some?
    ensures |Search(m, s, e, path).value| <= |path| + |q|
    decreases Unused(m, path), 1, 0
  {
    if s != e {
      ExploreMinimal(m, s, e, path, 0, None, q);
    }
  }

  lemma {:induction false} ExploreMinimal(m: Manager, s: string, e: string, path: seq<nat>, i: nat,
                                          best: Option<seq<nat>>, q: seq<nat>)
    requires Wired(m) && s in m.items && i <= |m.items[s]|
    requires Chain(m, s, e, q) && Simple(q) && Avoids(q, path) && s != e
    requires |q| > 0 && q[0] in m.items[s][i..]
    ensures Explore(m, s, e, path, i, best).Some?
    ensures |Explore(m, s, e, path, i, best).value| <= |path| + |q|
    decreases Unused(m, path), 0, |m.items[s]| - i
  {
    var node := m.items[s][i];
    if node == q[0] {
      assert node !in path;
      UnusedShrinks(m, path, node);
      var next := m.edges[node].other;
      assert Avoids(q[1..], path + [node]);
      SearchMinimal(m, next, e, path + [node], q[1..]);
    } else {
      assert q[0] in m.items[s][i + 1..];
      var found := if node in path then None else Search(m, m.edges[node].other, e, path + [node]);
      var best' := if found.Some? && (best.None? || |found.value| < |best.value|) then found else best;
      ExploreMinimal(m, s, e, path, i + 1, best', q);
    }
  }

  lemma {:induction false} ChainAppend(m: Manager, s: string, mid: string, e: string, a: seq<nat>, b: seq<nat>)
    requires Chain(m, s, mid, a) && Chain(m, mid, e, b)
    ensures Chain(m, s, e, a + b)
    decreases |a|
  {
    if |a| > 0 {
      ChainAppend(m, m.edges[a[0]].other, mid, e, a[1..], b);
      assert (a + b)[0] == a[0] && (a + b)[1..] == a[1..] + b;
    } else {
      assert a + b == b;
    }
  }

  /** A walk passes through the node every one of its edges leaves. */
  lemma {:induction false} ChainCut(m: Manager, s: string, e: string, q: seq<nat>, k: nat)
    requires Wired(m) && Chain(m, s, e, q) && k < |q|
    ensures q[k] < |m.edges|
    ensures Chain(m, s, m.edges[q[k]].family, q[..k])
    ensures Chain(m, m.edges[q[k]].family, e, q[k..])
    decreases k
  {
    if k == 0 {
      var j :| 0 <= j < |m.items[s]| && m.items[s][j] == q[0];
      assert q[..0] == [] && q[0..] == q;
    } else {
      var next := m.edges[q[0]].other;
      ChainCut(m, next, e, q[1..], k - 1);
      assert q[1..][k - 1] == q[k];
      assert q[1..][..k - 1] == q[..k][1..];
      assert q[1..][k - 1..] == q[k..];
    }
  }

  /** Cutting out the loop between two uses of the same edge leaves a
      shorter walk; repeating that gives a simple walk. */
  lemma {:induction false} Shortcut(m: Manager, s: string, e: string, q: seq<nat>) returns (q': seq<nat>)
    requires Wired(m) && Chain(m, s, e, q)
    ensures Chain(m, s, e, q') && Simple(q') && |q'| <= |q|
    decreases |q|
  {
    if Simple(q) {
      q' := q;
    } else {
      var i, j :| 0 <= i < j < |q| && q[i] == q[j];
      ChainCut(m, s, e, q, i);
      ChainCut(m, s, e, q, j);
      ChainAppend(m, s, m.edges[q[i]].family, e, q[..i], q[j..]);
      q' := Shortcut(m, s, e, q[..i] + q[j..]);
    }
  }

  /** Every index of `path` names an edge of `m`. */
  predicate OnEdges(m: Manager, path: seq<nat>) {
    forall k :: 0 <= k < |path| ==> path[k] < |m.edges|
  }

  lemma {:induction false} ChainOnEdges(m: Manager, s: string, e: string, q: seq<nat>)
    requires Chain(m, s, e, q)
    ensures OnEdges(m, q)
    decreases |q|
  {
    if |q| > 0 {
      ChainOnEdges(m, m.edges[q[0]].other, e, q[1..]);
      assert forall k :: 0 < k < |q| ==> q[k] == q[1..][k - 1];
    }
  }

  /** No edge leaves the node set `S`. */
  ghost predicate Closed(m: Manager, S: set<string>) {
    forall i :: 0 <= i < |m.edges| && m.edges[i].family in S ==> m.edges[i].other in S
  }

  /** A walk that starts inside a node set no edge leaves ends inside it. */
  lemma {:induction false} ChainStaysIn(m: Manager, S: set<string>, s: string, e: string, q: seq<nat>)
    requires Wired(m) && Closed(m, S) && s in S && Chain(m, s, e, q)
    ensures e in S
    decreases |q|
  {
    if |q| > 0 {
      var j :| 0 <= j < |m.items[s]| && m.items[s][j] == q[0];
      assert m.edges[q[0]].family == s;
      ChainStaysIn(m, S, m.edges[q[0]].other, e, q[1..]);
    }
  }

  /** `shortest_path(start, end)`. An end that is not a registered family
      gives None. */
  function ShortestPath(m: Manager, start: string, end: string): (r: Option<seq<nat>>)
    requires Wired(m)
    ensures r.Some? ==> start in m.items && end in m.items
    ensures r.Some? ==> Chain(m, start, end, r.value) && Simple(r.value) && OnEdges(m, r.value)
    ensures start in m.items && end in m.items && start == end ==> r == Some([])
  {
    if start !in m.items || end !in m.items then None
    else
      var r := Search(m, start, end, []);
      assert r.Some? ==> r.value[0..] == r.value;
      if r.Some? then ChainOnEdges(m, start, end, r.value); r else r
  }

  /** No walk between two families is shorter than the one found. */
  lemma ShortestPathMinimal(m: Manager, start: string, end: string, q: seq<nat>)
    requires Wired(m) && start in m.items && end in m.items && Chain(m, start, end, q)
    ensures ShortestPath(m, start, end).Some?
    ensures |ShortestPath(m, start, end).value| <= |q|
  {
    var q' := Shortcut(m, start, end, q);
    SearchMinimal(m, start, end, [], q');
  }

  /** The search fails exactly when the two families are not connected. */
  lemma ShortestPathNone(m: Manager, start: string, end: string)
    requires Wired(m)
    ensures ShortestPath(m, start, end).None? <==>
              !(start in m.items && end in m.items && exists q :: Chain(m, start, end, q))
  {
    var r := ShortestPath(m, start, end);
    var connected := start in m.items && end in m.items && exists q :: Chain(m, start, end, q);
    if connected {
      var q :| Chain(m, start, end, q);
      ShortestPathMinimal(m, start, end, q);
      assert r.Some? && start in m.items && end in m.items;
      assert exists q' :: Chain(m, start, end, q') by {
        assert Chain(m, start, end, q);
      }
    }
  }

  /** When the only edge out of `start` leads straight to `end`, that edge
      alone is the shortest path. */
  lemma OnlyEdge(m: Manager, start: string, end: string, e: nat)
    requires Wired(m) && start in m.items && end in m.items && start != end
    requires m.items[start] == [e] && e < |m.edges| && m.edges[e].other == end
    ensures ShortestPath(m, start, end) == Some([e])
  {
    assert Chain(m, end, end, []);
    assert Chain(m, start, end, [e]);
    ShortestPathMinimal(m, start, end, [e]);
    var p := ShortestPath(m, start, end).value;
    assert |p| == 1;
    assert p == [p[0]];
  }
}
