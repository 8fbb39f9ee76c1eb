/** The dependency-boundary check: a breadth-first search for links that leave the permitted packages. */
module Boundary {
  import opened Wrappers
  import opened Ordering

  /** Package names, as numbers in name order. */
  type Name = nat
  type Graph = map<Name, set<Name>>

  /** A package that may not be linked, with one chain of links to it. */
  datatype Crossing = Crossing(name: Name, chain: seq<Name>)

  /** Every link leads to a package of the graph. */
  ghost predicate Closed(graph: Graph) {
    forall u, v :: u in graph && v in graph[u] ==> v in graph
  }

  /** A chain of links from `start` to `x` whose packages in between are permitted. */
  ghost predicate IsPath(graph: Graph, permitted: Name -> bool, start: Name, p: seq<Name>, x: Name) {
    && |p| > 0 && p[0] == start && p[|p| - 1] == x
    && (forall i :: 0 <= i < |p| - 1 ==> p[i] in graph && p[i + 1] in graph[p[i]])
    && (forall i :: 0 < i < |p| - 1 ==> permitted(p[i]))
  }

  predicate Expandable(permitted: Name -> bool, start: Name, v: Name) {
    v == start || permitted(v)
  }

  type Via = map<Name, Option<Name>>
  type Depth = map<Name, nat>

  /** The package from which `v` was found is one step nearer to the start. */
  ghost predicate Parented(graph: Graph, permitted: Name -> bool, start: Name, via: Via, depth: Depth, v: Name) {
    && v in via && v in depth && v in graph
    && if v == start then depth[v] == 0
       else && via[v].Some? && via[v].value in via && via[v].value in depth && via[v].value in graph
            && v in graph[via[v].value] && Expandable(permitted, start, via[v].value)
            && depth[v] == depth[via[v].value] + 1
  }

  ghost predicate Tree(graph: Graph, permitted: Name -> bool, start: Name, via: Via, depth: Depth) {
    start in via && forall v :: v in via ==> Parented(graph, permitted, start, via, depth, v)
  }

  /** The chain that the parents give is a path, one link longer than the depth counts. */
  method ChainTo(graph: Graph, permitted: Name -> bool, start: Name, via: Via, ghost depth: Depth, x: Name)
    returns (chain: seq<Name>)
    requires Tree(graph, permitted, start, via, depth) && x in via
    ensures x in depth && |chain| == depth[x] + 1 && IsPath(graph, permitted, start, chain, x)
  {
    assert Parented(graph, permitted, start, via, depth, x);
    chain := [x];
    ghost var total := depth[x] + 1;
    while chain[0] != start
      invariant |chain| > 0 && chain[|chain| - 1] == x && chain[0] in via && chain[0] in depth
      invariant depth[chain[0]] + |chain| == total
      invariant forall i :: 0 <= i < |chain| - 1 ==> chain[i] in graph && chain[i + 1] in graph[chain[i]]
      invariant forall i :: 0 <= i < |chain| - 1 ==> Expandable(permitted, start, chain[i])
      invariant forall i :: 1 <= i < |chain| ==> chain[i] != start
      decreases depth[chain[0]]
    {
      assert Parented(graph, permitted, start, via, depth, chain[0]);
      var parent := via[chain[0]].value;
      assert Parented(graph, permitted, start, via, depth, parent);
      chain := [parent] + chain;
    }
    assert Parented(graph, permitted, start, via, depth, start);
  }

  // ----- the search -----

  /** What the search keeps: parents and depths of the packages that it found, the queue, the packages
      that it expanded, the crossings, and the depth of the package that it expands. */
  datatype Search = Search(via: Via, depth: Depth, pending: seq<Name>, done: set<Name>, found: seq<Crossing>, level: nat)

  predicate Named(found: seq<Crossing>, v: Name) {
    exists i :: 0 <= i < |found| && found[i].name == v
  }

  /** The queue holds packages to expand, nearest first, within one link of the current level. */
  ghost predicate Queued(permitted: Name -> bool, start: Name, w: Search) {
    && (forall i :: 0 <= i < |w.pending| ==> Waiting(permitted, start, w, w.pending[i]))
    && (forall i, j :: 0 <= i < j < |w.pending| ==> Before(w, w.pending[i], w.pending[j]))
  }

  predicate Waiting(permitted: Name -> bool, start: Name, w: Search, v: Name) {
    v in w.via && v in w.depth && Expandable(permitted, start, v) && v !in w.done && w.level <= w.depth[v]
  }

  predicate Before(w: Search, u: Name, v: Name) {
    u != v && u in w.depth && v in w.depth && w.depth[u] <= w.depth[v]
  }

  ghost predicate Near(w: Search) {
    && w.done <= w.via.Keys
    && forall v :: v in w.via ==> v in w.depth && w.depth[v] <= w.level + 1
  }

  /** Every link of an expanded package leads to a found one, at most one link farther. */
  predicate Linked(w: Search, u: Name, v: Name) {
    u in w.depth && v in w.via && v in w.depth && w.depth[v] <= w.depth[u] + 1
  }

  ghost predicate Expanded(graph: Graph, w: Search) {
    forall u, v :: u in w.done && u in graph && v in graph[u] ==> Linked(w, u, v)
  }

  /** A found package is expanded, waiting or being expanded, or it is a crossing. */
  predicate Handled(permitted: Name -> bool, start: Name, w: Search, current: Option<Name>, v: Name) {
    if Expandable(permitted, start, v) then v in w.done || v in w.pending || current == Some(v) else Named(w.found, v)
  }

  ghost predicate AllHandled(permitted: Name -> bool, start: Name, w: Search, current: Option<Name>) {
    forall v :: v in w.via ==> Handled(permitted, start, w, current, v)
  }

  /** A reported crossing with its chain. */
  ghost predicate Reported(graph: Graph, permitted: Name -> bool, start: Name, w: Search, c: Crossing) {
    && c.name in w.via && c.name in w.depth && !Expandable(permitted, start, c.name)
    && |c.chain| == w.depth[c.name] + 1 && IsPath(graph, permitted, start, c.chain, c.name)
  }

  ghost predicate AllReported(graph: Graph, permitted: Name -> bool, start: Name, w: Search) {
    && (forall i :: 0 <= i < |w.found| ==> Reported(graph, permitted, start, w, w.found[i]))
    && (forall i, j :: 0 <= i < j < |w.found| ==> w.found[i].name != w.found[j].name)
  }

  ghost predicate Searching(graph: Graph, permitted: Name -> bool, start: Name, w: Search, current: Option<Name>) {
    && Tree(graph, permitted, start, w.via, w.depth) && Queued(permitted, start, w) && Near(w) && Expanded(graph, w)
    && AllHandled(permitted, start, w, current) && AllReported(graph, permitted, start, w)
    && (current.Some? ==> current.value in w.via && current.value in w.depth && current.value !in w.done
                          && current.value !in w.pending && Expandable(permitted, start, current.value)
                          && w.depth[current.value] == w.level)
  }

  lemma SearchStarts(graph: Graph, permitted: Name -> bool, start: Name)
    requires start in graph
    ensures Searching(graph, permitted, start, Search(map[start := None], map[start := 0], [start], {}, [], 0), None)
  {}

  /** Taking the nearest waiting package. */
  lemma Popped(graph: Graph, permitted: Name -> bool, start: Name, w: Search)
    requires Searching(graph, permitted, start, w, None) && w.pending != []
    ensures w.pending[0] in w.depth
    ensures Searching(graph, permitted, start, w.(pending := w.pending[1..], level := w.depth[w.pending[0]]), Some(w.pending[0]))
  {
    var c := w.pending[0];
    assert Waiting(permitted, start, w, c);
    var t := w.(pending := w.pending[1..], level := w.depth[c]);
    assert Queued(permitted, start, t) && c !in t.pending by {
      forall i | 0 <= i < |t.pending| ensures Waiting(permitted, start, t, t.pending[i]) && t.pending[i] != c {
        assert t.pending[i] == w.pending[i + 1];
        assert Waiting(permitted, start, w, w.pending[i + 1]) && Before(w, c, w.pending[i + 1]);
      }
      forall i, j | 0 <= i < j < |t.pending| ensures Before(t, t.pending[i], t.pending[j]) {
        assert Before(w, w.pending[i + 1], w.pending[j + 1]);
      }
    }
    assert AllHandled(permitted, start, t, Some(c)) by {
      forall v | v in t.via ensures Handled(permitted, start, t, Some(c), v) {
        assert Handled(permitted, start, w, None, v);
        assert w.pending == [c] + t.pending;
      }
    }
    assert Expanded(graph, t) by {
      forall u, v | u in t.done && u in graph && v in graph[u] ensures Linked(t, u, v) { assert Linked(w, u, v); }
    }
    assert AllReported(graph, permitted, start, t) by {
      hide IsPath;
      forall i | 0 <= i < |t.found| ensures Reported(graph, permitted, start, t, t.found[i]) {
        assert Reported(graph, permitted, start, w, w.found[i]);
      }
    }
  }

  /** A link to a package that was not found before. */
  function Discovered(w: Search, current: Name, v: Name): Search {
    w.(via := w.via[v := Some(current)], depth := w.depth[v := w.level + 1])
  }

  lemma DiscoveredTree(graph: Graph, permitted: Name -> bool, start: Name, w: Search, c: Name, v: Name)
    requires Searching(graph, permitted, start, w, Some(c)) && v !in w.via && c in graph && v in graph[c] && v in graph
    ensures var t := Discovered(w, c, v); Tree(graph, permitted, start, t.via, t.depth) && Near(t) && Expanded(graph, t)
  {
    var t := Discovered(w, c, v);
    forall u | u in t.via ensures Parented(graph, permitted, start, t.via, t.depth, u) {
      if u != v { assert Parented(graph, permitted, start, w.via, w.depth, u); }
      assert Parented(graph, permitted, start, w.via, w.depth, c);
    }
    forall x, y | x in t.done && x in graph && y in graph[x] ensures Linked(t, x, y) {
      assert Linked(w, x, y) && x in w.via;
    }
  }

  lemma DiscoveredKeeps(graph: Graph, permitted: Name -> bool, start: Name, w: Search, c: Name, v: Name)
    requires Searching(graph, permitted, start, w, Some(c)) && v !in w.via
    ensures var t := Discovered(w, c, v);
            && Queued(permitted, start, t) && AllReported(graph, permitted, start, t)
            && (forall i :: 0 <= i < |t.pending| ==> t.pending[i] != v && t.pending[i] in t.depth && t.depth[t.pending[i]] <= t.depth[v])
  {
    hide IsPath, Tree, Expanded, AllHandled;
    var t := Discovered(w, c, v);
    forall i | 0 <= i < |t.pending| ensures Waiting(permitted, start, t, t.pending[i]) && t.pending[i] != v {
      assert Waiting(permitted, start, w, w.pending[i]);
    }
    forall i, j | 0 <= i < j < |t.pending| ensures Before(t, t.pending[i], t.pending[j]) {
      assert Before(w, w.pending[i], w.pending[j]) && Waiting(permitted, start, w, w.pending[i]) && Waiting(permitted, start, w, w.pending[j]);
    }
    forall i | 0 <= i < |t.found| ensures Reported(graph, permitted, start, t, t.found[i]) {
      assert Reported(graph, permitted, start, w, w.found[i]);
    }
  }

  lemma FoundPermitted(graph: Graph, permitted: Name -> bool, start: Name, w: Search, c: Name, v: Name)
    requires Searching(graph, permitted, start, w, Some(c)) && v !in w.via && c in graph && v in graph[c] && v in graph
    requires permitted(v)
    ensures Searching(graph, permitted, start, Discovered(w, c, v).(pending := w.pending + [v]), Some(c))
  {
    DiscoveredTree(graph, permitted, start, w, c, v);
    DiscoveredKeeps(graph, permitted, start, w, c, v);
    var d := Discovered(w, c, v);
    var t := d.(pending := w.pending + [v]);
    hide Tree, Parented, IsPath;
    assert Queued(permitted, start, t) by {
      forall i | 0 <= i < |t.pending| ensures Waiting(permitted, start, t, t.pending[i]) {
        if i < |d.pending| { assert Waiting(permitted, start, d, d.pending[i]); }
      }
      forall i, j | 0 <= i < j < |t.pending| ensures Before(t, t.pending[i], t.pending[j]) {
        if j < |d.pending| { assert Before(d, d.pending[i], d.pending[j]); }
      }
    }
    assert Expanded(graph, t) by {
      forall x, y | x in t.done && x in graph && y in graph[x] ensures Linked(t, x, y) { assert Linked(d, x, y); }
    }
    assert AllHandled(permitted, start, t, Some(c)) by {
      forall x | x in t.via ensures Handled(permitted, start, t, Some(c), x) {
        if x != v { assert Handled(permitted, start, w, Some(c), x); }
      }
    }
    assert AllReported(graph, permitted, start, t) by {
      forall i | 0 <= i < |t.found| ensures Reported(graph, permitted, start, t, t.found[i]) {
        assert Reported(graph, permitted, start, d, d.found[i]);
      }
    }
  }

  /** The queue and the expanded packages do not depend on what was reported. */
  lemma ReportKeeps(graph: Graph, permitted: Name -> bool, start: Name, w: Search, found: seq<Crossing>)
    requires Queued(permitted, start, w) && Expanded(graph, w)
    ensures Queued(permitted, start, w.(found := found)) && Expanded(graph, w.(found := found))
  {
    var t := w.(found := found);
    forall i | 0 <= i < |t.pending| ensures Waiting(permitted, start, t, t.pending[i]) {
      assert Waiting(permitted, start, w, w.pending[i]);
    }
    forall i, j | 0 <= i < j < |t.pending| ensures Before(t, t.pending[i], t.pending[j]) {
      assert Before(w, w.pending[i], w.pending[j]);
    }
    forall x, y | x in t.done && x in graph && y in graph[x] ensures Linked(t, x, y) { assert Linked(w, x, y); }
  }

  lemma ReportAdds(graph: Graph, permitted: Name -> bool, start: Name, w: Search, c: Crossing)
    requires AllReported(graph, permitted, start, w) && Reported(graph, permitted, start, w, c)
    requires forall i :: 0 <= i < |w.found| ==> w.found[i].name != c.name
    ensures AllReported(graph, permitted, start, w.(found := w.found + [c]))
  {
    hide IsPath;
    var t := w.(found := w.found + [c]);
    forall i | 0 <= i < |t.found| ensures Reported(graph, permitted, start, t, t.found[i]) {
      assert i < |w.found| ==> Reported(graph, permitted, start, w, w.found[i]);
    }
  }

  lemma FoundCrossing(graph: Graph, permitted: Name -> bool, start: Name, w: Search, c: Name, v: Name, chain: seq<Name>)
    requires Searching(graph, permitted, start, w, Some(c)) && v !in w.via && c in graph && v in graph[c] && v in graph
    requires !permitted(v) && |chain| == w.level + 2 && IsPath(graph, permitted, start, chain, v)
    ensures Searching(graph, permitted, start, Discovered(w, c, v).(found := w.found + [Crossing(v, chain)]), Some(c))
  {
    DiscoveredTree(graph, permitted, start, w, c, v);
    DiscoveredKeeps(graph, permitted, start, w, c, v);
    assert v != start;
    var d := Discovered(w, c, v);
    var t := d.(found := w.found + [Crossing(v, chain)]);
    hide Tree, IsPath, Expanded, Queued;
    ReportKeeps(graph, permitted, start, d, t.found);
    forall i | 0 <= i < |w.found| ensures w.found[i].name != v {
      assert Reported(graph, permitted, start, w, w.found[i]);
    }
    ReportAdds(graph, permitted, start, d, Crossing(v, chain));
    hide AllReported, Reported;
    forall x | x in t.via ensures Handled(permitted, start, t, Some(c), x) {
      if x != v {
        assert Handled(permitted, start, w, Some(c), x);
        NamedStill(w.found, Crossing(v, chain), x);
      } else {
        assert t.found[|w.found|].name == v;
      }
    }
  }

  lemma NamedStill(found: seq<Crossing>, c: Crossing, v: Name)
    ensures Named(found, v) ==> Named(found + [c], v)
  {
    if Named(found, v) {
      var i :| 0 <= i < |found| && found[i].name == v;
      assert (found + [c])[i].name == v;
    }
  }

  /** Every link of the current package was followed. */
  lemma Finished(graph: Graph, permitted: Name -> bool, start: Name, w: Search, c: Name)
    requires Searching(graph, permitted, start, w, Some(c)) && c in graph
    requires forall v :: v in graph[c] ==> v in w.via
    ensures Searching(graph, permitted, start, w.(done := w.done + {c}), None)
  {
    var t := w.(done := w.done + {c});
    hide Tree, Parented, IsPath;
    assert Queued(permitted, start, t) by {
      forall i | 0 <= i < |t.pending| ensures Waiting(permitted, start, t, t.pending[i]) {
        assert Waiting(permitted, start, w, w.pending[i]);
      }
      forall i, j | 0 <= i < j < |t.pending| ensures Before(t, t.pending[i], t.pending[j]) {
        assert Before(w, w.pending[i], w.pending[j]);
      }
    }
    assert Expanded(graph, t) by {
      forall u, v | u in t.done && u in graph && v in graph[u] ensures Linked(t, u, v) {
        assert u != c ==> Linked(w, u, v);
      }
    }
    assert AllHandled(permitted, start, t, None) by {
      forall v | v in t.via ensures Handled(permitted, start, t, None, v) { assert Handled(permitted, start, w, Some(c), v); }
    }
    assert AllReported(graph, permitted, start, t) by {
      forall i | 0 <= i < |t.found| ensures Reported(graph, permitted, start, t, t.found[i]) {
        assert Reported(graph, permitted, start, w, w.found[i]);
      }
    }
  }

  /** When nothing waits, every path ends at a found package, and the depth is at most its length. */
  lemma {:induction false} PathsAreFound(graph: Graph, permitted: Name -> bool, start: Name, w: Search, p: seq<Name>, x: Name)
    requires Searching(graph, permitted, start, w, None) && w.pending == [] && start in graph
    requires IsPath(graph, permitted, start, p, x)
    ensures x in w.via && x in w.depth && w.depth[x] + 1 <= |p|
    decreases |p|
  {
    if |p| == 1 {
      assert Parented(graph, permitted, start, w.via, w.depth, start);
    } else {
      var n := |p| - 1;
      var init, y := p[..n], p[n - 1];
      assert IsPath(graph, permitted, start, init, y);
      PathsAreFound(graph, permitted, start, w, init, y);
      assert y in graph && x in graph[y] by { assert p[n - 1] in graph && p[n] in graph[p[n - 1]]; }
      assert Expandable(permitted, start, y);
      assert Handled(permitted, start, w, None, y);
      assert Linked(w, y, x);
    }
  }

  method Crossings(graph: Graph, start: Name, permitted: Name -> bool) returns (found: seq<Crossing>)
    requires start in graph && Closed(graph)
    // each crossing is reported once, with a shortest chain
    ensures forall i, j :: 0 <= i < j < |found| ==> found[i].name != found[j].name
    ensures forall i :: 0 <= i < |found| ==>
              && !permitted(found[i].name) && found[i].name != start
              && IsPath(graph, permitted, start, found[i].chain, found[i].name)
    ensures forall i, p :: 0 <= i < |found| && IsPath(graph, permitted, start, p, found[i].name) ==> |found[i].chain| <= |p|
    // and none is missed
    ensures forall x, p :: !permitted(x) && x != start && IsPath(graph, permitted, start, p, x) ==> Named(found, x)
  {
    hide *;
    var via: Via := map[start := None];
    var pending := [start];
    found := [];
    ghost var w := Search(via, map[start := 0], pending, {}, found, 0);
    SearchStarts(graph, permitted, start);
    while pending != []
      invariant Searching(graph, permitted, start, w, None)
      invariant w.via == via && w.pending == pending && w.found == found
      decreases graph.Keys - w.done
    {
      var current := pending[0];
      Popped(graph, permitted, start, w);
      w := w.(pending := pending[1..], level := w.depth[current]);
      pending := pending[1..];
      CurrentFacts(graph, permitted, start, w, current);
      var dependencies := Ordered(graph[current]);
      ghost var before := w.done;
      for i := 0 to |dependencies|
        invariant Searching(graph, permitted, start, w, Some(current))
        invariant w.via == via && w.pending == pending && w.found == found && w.done == before
        invariant forall k :: 0 <= k < i ==> dependencies[k] in via
      {
        var dependency := dependencies[i];
        assert dependency in dependencies;
        ClosedAt(graph, current, dependency);
        if dependency in via { continue; }
        via := via[dependency := Some(current)];
        if permitted(dependency) {
          FoundPermitted(graph, permitted, start, w, current, dependency);
          pending := pending + [dependency];
          DiscoveredParts(w, current, dependency);
          w := Discovered(w, current, dependency).(pending := pending);
        } else {
          DiscoveredTree(graph, permitted, start, w, current, dependency);
          DiscoveredParts(w, current, dependency);
          ghost var d := Discovered(w, current, dependency);
          var chain := ChainTo(graph, permitted, start, via, d.depth, dependency);
          FoundCrossing(graph, permitted, start, w, current, dependency, chain);
          found := found + [Crossing(dependency, chain)];
          w := d.(found := found);
        }
      }
      CurrentFacts(graph, permitted, start, w, current);
      forall v | v in graph[current] ensures v in w.via { assert v in dependencies; }
      Finished(graph, permitted, start, w, current);
      w := w.(done := w.done + {current});
    }
    SearchEnds(graph, permitted, start, w);
  }

  lemma ClosedAt(graph: Graph, u: Name, v: Name)
    requires Closed(graph) && u in graph && v in graph[u]
    ensures v in graph
  {}

  lemma DiscoveredParts(w: Search, c: Name, v: Name)
    ensures var t := Discovered(w, c, v);
            && t.via == w.via[v := Some(c)] && t.depth == w.depth[v := w.level + 1]
            && t.pending == w.pending && t.done == w.done && t.found == w.found && t.level == w.level
  {}

  lemma CurrentFacts(graph: Graph, permitted: Name -> bool, start: Name, w: Search, c: Name)
    requires Searching(graph, permitted, start, w, Some(c))
    ensures c in graph && c !in w.done
  {
    assert Parented(graph, permitted, start, w.via, w.depth, c);
  }

  lemma SearchEnds(graph: Graph, permitted: Name -> bool, start: Name, w: Search)
    requires Searching(graph, permitted, start, w, None) && w.pending == [] && start in graph
    ensures forall i, j :: 0 <= i < j < |w.found| ==> w.found[i].name != w.found[j].name
    ensures forall i :: 0 <= i < |w.found| ==>
              && !permitted(w.found[i].name) && w.found[i].name != start
              && IsPath(graph, permitted, start, w.found[i].chain, w.found[i].name)
    ensures forall i, p :: 0 <= i < |w.found| && IsPath(graph, permitted, start, p, w.found[i].name) ==> |w.found[i].chain| <= |p|
    ensures forall x, p :: !permitted(x) && x != start && IsPath(graph, permitted, start, p, x) ==> Named(w.found, x)
  {
    hide IsPath, Tree, Expanded, Queued;
    forall i | 0 <= i < |w.found| ensures Reported(graph, permitted, start, w, w.found[i]) {}
    forall i, p | 0 <= i < |w.found| && IsPath(graph, permitted, start, p, w.found[i].name)
      ensures |w.found[i].chain| <= |p|
    {
      PathsAreFound(graph, permitted, start, w, p, w.found[i].name);
      assert Reported(graph, permitted, start, w, w.found[i]);
    }
    forall x, p | !permitted(x) && x != start && IsPath(graph, permitted, start, p, x) ensures Named(w.found, x) {
      PathsAreFound(graph, permitted, start, w, p, x);
      assert Handled(permitted, start, w, None, x);
    }
  }
}
