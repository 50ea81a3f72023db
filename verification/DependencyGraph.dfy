/** Graftlet dependencies: graftlets whose requirements cannot be met are dropped until a
    fixpoint, then a depth-first search over the rest looks for dependency cycles. */
module DependencyGraph {
  import opened Options

  type Name = string
  type Version = nat
  type Deps = seq<(Name, Version)>
  type Graph = map<Name, Deps>
  type Versions = map<Name, Version>

  // ----- satisfiable graftlets -----

  /** The mark left by a dependency string that could not be parsed. */
  predicate BadFormat(deps: Deps) {
    |deps| == 1 && deps[0].0 == ""
  }

  /** All of a graftlet's requirements are met inside `loaded`, at the required versions. */
  predicate Satisfied(deps: Deps, ver: Versions, tooOld: (Version, Version) -> bool, loaded: set<Name>) {
    && !BadFormat(deps)
    && forall k :: 0 <= k < |deps| ==>
         deps[k].0 in loaded && deps[k].0 in ver && !tooOld(ver[deps[k].0], deps[k].1)
  }

  /** A set of graftlets that can be loaded together, cycles aside. */
  ghost predicate Consistent(g: Graph, ver: Versions, tooOld: (Version, Version) -> bool, loaded: set<Name>) {
    loaded <= g.Keys && forall n :: n in loaded ==> Satisfied(g[n], ver, tooOld, loaded)
  }

  /** Requirements only get easier to meet in a larger set. */
  lemma SatisfiedMono(deps: Deps, ver: Versions, ver': Versions, tooOld: (Version, Version) -> bool,
                      small: set<Name>, large: set<Name>)
    requires small <= large && Satisfied(deps, ver, tooOld, small)
    requires forall n :: n in small && n in ver ==> n in ver' && ver'[n] == ver[n]
    ensures Satisfied(deps, ver', tooOld, large)
  {
  }

  ghost predicate Distinct<T>(s: seq<T>) {
    forall i, j :: 0 <= i < j < |s| ==> s[i] != s[j]
  }

  // ----- cycles and load orders -----

  ghost predicate Edge(g: Graph, a: Name, b: Name) {
    a in g && exists k :: 0 <= k < |g[a]| && g[a][k].0 == b
  }

  ghost predicate Closed(g: Graph) {
    forall n, k :: n in g && 0 <= k < |g[n]| ==> g[n][k].0 in g
  }

  ghost predicate Cycle(g: Graph, c: seq<Name>) {
    |c| >= 2 && c[0] == c[|c| - 1] && forall i :: 0 <= i < |c| - 1 ==> Edge(g, c[i], c[i + 1])
  }

  /** Every graftlet comes after all its dependencies. */
  ghost predicate LoadOrder(g: Graph, order: seq<Name>) {
    && Distinct(order)
    && (forall i :: 0 <= i < |order| ==> order[i] in g)
    && (forall i, k :: 0 <= i < |order| && 0 <= k < |g[order[i]]| ==> g[order[i]][k].0 in order[..i])
  }

  ghost predicate Complete(g: Graph, order: seq<Name>) {
    LoadOrder(g, order) && forall n :: n in g ==> n in order
  }

  /** A rank that strictly decreases along every edge. */
  ghost predicate Ranked(g: Graph, rank: map<Name, nat>) {
    && rank.Keys == g.Keys
    && forall a, b :: a in g && b in g && Edge(g, a, b) ==> rank[b] < rank[a]
  }

  ghost function IndexOf(s: seq<Name>, n: Name): (i: nat)
    requires n in s
    ensures i < |s| && s[i] == n
  {
    if s[0] == n then 0 else 1 + IndexOf(s[1..], n)
  }

  lemma OrderGivesRank(g: Graph, order: seq<Name>) returns (rank: map<Name, nat>)
    requires Closed(g) && Complete(g, order)
    ensures Ranked(g, rank)
  {
    rank := map n | n in g :: IndexOf(order, n);
    forall a, b | a in g && b in g && Edge(g, a, b) ensures rank[b] < rank[a] {
      var k :| 0 <= k < |g[a]| && g[a][k].0 == b;
      assert order[rank[a]] == a;
      assert b in order[..rank[a]];
      var j :| 0 <= j < rank[a] && order[j] == b;
      assert j == rank[b];
    }
  }

  /** A rank rules out every cycle, self-loops included. */
  lemma RankExcludesCycle(g: Graph, rank: map<Name, nat>, c: seq<Name>)
    requires Closed(g) && Ranked(g, rank)
    ensures !Cycle(g, c)
  {
    if Cycle(g, c) { RankFalls(g, rank, c, |c| - 1); }
  }

  lemma {:induction false} RankFalls(g: Graph, rank: map<Name, nat>, c: seq<Name>, i: nat)
    requires Closed(g) && Ranked(g, rank) && 0 < i < |c|
    requires forall j :: 0 <= j < |c| - 1 ==> Edge(g, c[j], c[j + 1])
    ensures c[0] in g && c[i] in g && rank[c[i]] < rank[c[0]]
  {
    assert Edge(g, c[i - 1], c[i]);
    if i > 1 {
      RankFalls(g, rank, c, i - 1);
    } else {
      assert Edge(g, c[0], c[1]);
    }
  }

  // ----- the depth-first search -----

  datatype Color = White | Gray | Black

  /** `stack` is the path with the current vertex on top: exactly the gray vertices, each an edge
      away from the next. The black ones, in finishing order, are a load order. */
  ghost predicate Searching(g: Graph, colors: map<Name, Color>, order: seq<Name>, stack: seq<Name>) {
    && colors.Keys == g.Keys
    && (forall n :: n in colors ==> (colors[n] == Black <==> n in order))
    && (forall n :: n in colors ==> (colors[n] == Gray <==> n in stack))
    && (forall i :: 0 <= i < |stack| ==> stack[i] in g)
    && Distinct(stack)
    && (forall i :: 0 <= i < |stack| - 1 ==> Edge(g, stack[i], stack[i + 1]))
    && LoadOrder(g, order)
  }

  ghost function Whites(colors: map<Name, Color>): set<Name> {
    set n | n in colors && colors[n] == White
  }

  /** Entering a white vertex, either as a new root or from the vertex on top. */
  lemma Enter(g: Graph, colors: map<Name, Color>, order: seq<Name>, stack: seq<Name>, n: Name)
    requires Searching(g, colors, order, stack) && n in colors && colors[n] == White
    requires stack == [] || Edge(g, stack[|stack| - 1], n)
    ensures Searching(g, colors[n := Gray], order, stack + [n])
    ensures Whites(colors[n := Gray]) < Whites(colors)
  {
    var stack' := stack + [n];
    assert n !in stack;
    assert forall i :: 0 <= i < |stack'| - 1 ==> Edge(g, stack'[i], stack'[i + 1]);
    assert n in Whites(colors);
  }

  /** Leaving the vertex on top once all its dependencies are black. */
  lemma Leave(g: Graph, colors: map<Name, Color>, order: seq<Name>, stack: seq<Name>)
    requires stack != [] && Searching(g, colors, order, stack)
    requires var n := stack[|stack| - 1];
             forall k :: 0 <= k < |g[n]| ==> g[n][k].0 in colors && colors[g[n][k].0] == Black
    ensures var n := stack[|stack| - 1];
            && Searching(g, colors[n := Black], order + [n], stack[..|stack| - 1])
            && Whites(colors[n := Black]) == Whites(colors)
  {
    var n := stack[|stack| - 1];
    var order', stack' := order + [n], stack[..|stack| - 1];
    assert colors[n] == Gray && n !in order;
    assert order'[..|order|] == order;
    assert forall i :: 0 <= i < |order| ==> order'[..i] == order[..i];
    assert forall m :: m in stack <==> m in stack' || m == n;
  }

  /** The same, seen from the path below the vertex on top. */
  lemma LeaveTop(g: Graph, colors: map<Name, Color>, order: seq<Name>, path: seq<Name>, cur: Name)
    requires Searching(g, colors, order, path + [cur])
    requires cur in g && forall k :: 0 <= k < |g[cur]| ==> g[cur][k].0 in colors && colors[g[cur][k].0] == Black
    ensures Searching(g, colors[cur := Black], order + [cur], path)
    ensures Whites(colors[cur := Black]) == Whites(colors)
  {
    Leave(g, colors, order, path + [cur]);
    assert (path + [cur])[..|path|] == path;
  }

  /** A gray dependency of the vertex on top closes a cycle through the path. */
  lemma GrayCloses(g: Graph, colors: map<Name, Color>, order: seq<Name>, stack: seq<Name>, start: nat, child: Name)
    requires Searching(g, colors, order, stack) && start < |stack| && stack[start] == child
    requires Edge(g, stack[|stack| - 1], child)
    ensures Cycle(g, stack[start..] + [child])
  {
    var c := stack[start..] + [child];
    forall i | 0 <= i < |c| - 1 ensures Edge(g, c[i], c[i + 1]) {
      assert c[i] == stack[start + i];
    }
  }

  /** The reported sequence: the path from the gray child on, the current vertex, the child again. */
  lemma ReportCloses(g: Graph, colors: map<Name, Color>, order: seq<Name>, path: seq<Name>, cur: Name,
                     start: nat, child: Name)
    requires Searching(g, colors, order, path + [cur]) && Edge(g, cur, child)
    requires child in colors && colors[child] == Gray
    requires start <= |path| && (start < |path| ==> path[start] == child) && (start == |path| ==> child !in path)
    ensures Cycle(g, path[start..] + [cur, child])
  {
    var stack := path + [cur];
    assert child in stack;
    assert stack[start] == child;
    GrayCloses(g, colors, order, stack, start, child);
    assert stack[start..] + [child] == path[start..] + [cur, child];
  }

  /** The state of the removal loop: an unchanged part of the original graph that still contains
      every consistent set, and the names taken out so far. */
  ghost predicate Shrunk(g0: Graph, v0: Versions, tooOld: (Version, Version) -> bool,
                         g: Graph, v: Versions, removed: seq<Name>) {
    && g.Keys == v.Keys && g.Keys <= g0.Keys && v0.Keys == g0.Keys
    && (forall n :: n in g ==> g[n] == g0[n] && v[n] == v0[n])
    && (forall other: set<Name> :: Consistent(g0, v0, tooOld, other) ==> other <= g.Keys)
    && Distinct(removed) && (forall n :: n in removed <==> n in g0 && n !in g)
  }

  lemma ShrinkMore(g0: Graph, v0: Versions, tooOld: (Version, Version) -> bool,
                   g: Graph, v: Versions, removed: seq<Name>, name: Name)
    requires Shrunk(g0, v0, tooOld, g, v, removed)
    requires name in g && !Satisfied(g[name], v, tooOld, g.Keys)
    ensures Shrunk(g0, v0, tooOld, g - {name}, v - {name}, removed + [name])
  {
    forall other: set<Name> | Consistent(g0, v0, tooOld, other) ensures other <= (g - {name}).Keys {
      if name in other {
        SatisfiedMono(g[name], v0, v, tooOld, other, g.Keys);
      }
    }
  }

  lemma ShrinkStart(g: Graph, v: Versions, tooOld: (Version, Version) -> bool)
    requires g.Keys == v.Keys
    ensures Shrunk(g, v, tooOld, g, v, [])
  {
  }

  lemma ShrinkEnd(g0: Graph, v0: Versions, tooOld: (Version, Version) -> bool, g: Graph, v: Versions,
                  removed: seq<Name>)
    requires Shrunk(g0, v0, tooOld, g, v, removed) && Consistent(g, v, tooOld, g.Keys)
    ensures Consistent(g0, v0, tooOld, g.Keys)
    ensures forall other: set<Name> :: Consistent(g0, v0, tooOld, other) ==> other <= g.Keys
    ensures forall n :: n in g ==> n in g0 && g[n] == g0[n] && n in v && n in v0 && v[n] == v0[n]
    ensures Distinct(removed) && forall n :: n in removed <==> n in g0 && n !in g
  {
    forall n | n in g ensures Satisfied(g0[n], v0, tooOld, g.Keys) {
      SatisfiedMono(g[n], v, v0, tooOld, g.Keys, g.Keys);
    }
  }

  class DependencyGraph {
    var graph: Graph
    var ver: Versions
    var tooOld: (Version, Version) -> bool   // by default: installed version < required version

    constructor (graph: Graph, ver: Versions)
      requires ver.Keys == graph.Keys
      ensures this.graph == graph && this.ver == ver && forall v, w :: tooOld(v, w) <==> v < w
    {
      this.graph, this.ver := graph, ver;
      tooOld := (v, w) => v < w;
    }

    ghost predicate Valid()
      reads this
    {
      ver.Keys == graph.Keys
    }

    method Check(name: Name) returns (ok: bool)
      requires Valid() && name in graph
      ensures ok <==> Satisfied(graph[name], ver, tooOld, graph.Keys)
    {
      var deps := graph[name];
      if |deps| == 1 && deps[0].0 == "" {
        return false;
      }
      for k := 0 to |deps|
        invariant forall j :: 0 <= j < k ==> deps[j].0 in graph && !tooOld(ver[deps[j].0], deps[j].1)
      {
        if deps[k].0 !in graph || tooOld(ver[deps[k].0], deps[k].1) {
          return false;
        }
      }
      ok := true;
    }

    /** One pass over the graph, in any order: a graftlet that fails the check, if there is one. */
    method FindFailed() returns (failed: Option<Name>)
      requires Valid()
      ensures failed.Some? ==> failed.value in graph && !Satisfied(graph[failed.value], ver, tooOld, graph.Keys)
      ensures failed.None? ==> Consistent(graph, ver, tooOld, graph.Keys)
    {
      var rest := graph.Keys;
      while rest != {}
        invariant rest <= graph.Keys
        invariant forall n :: n in graph && n !in rest ==> Satisfied(graph[n], ver, tooOld, graph.Keys)
      {
        var name :| name in rest;
        var ok := Check(name);
        if !ok {
          return Some(name);
        }
        rest := rest - {name};
      }
      failed := None;
    }

    /** Leaves exactly the greatest consistent set of graftlets, with their entries untouched,
        whatever order failures are found in; returns exactly the ones removed. */
    method RemoveFailedDependants() returns (removed: seq<Name>)
      requires Valid()
      modifies this`graph, this`ver
      ensures Valid()
      ensures Consistent(old(graph), old(ver), tooOld, graph.Keys)
      ensures forall other: set<Name> :: Consistent(old(graph), old(ver), tooOld, other) ==> other <= graph.Keys
      ensures forall n :: n in graph ==> graph[n] == old(graph)[n] && ver[n] == old(ver)[n]
      ensures Distinct(removed)
      ensures forall n :: n in removed <==> n in old(graph) && n !in graph
    {
      removed := [];
      var changed := true;
      ghost var g0, v0 := graph, ver;
      ShrinkStart(g0, v0, tooOld);
      hide Shrunk;
      hide Consistent;
      while changed
        invariant Valid() && Shrunk(g0, v0, tooOld, graph, ver, removed)
        invariant !changed ==> Consistent(graph, ver, tooOld, graph.Keys)
        decreases |graph|, changed
      {
        changed := false;
        var failed := FindFailed();
        if failed.Some? {
          var name := failed.value;
          ShrinkMore(g0, v0, tooOld, graph, ver, removed, name);
          removed := removed + [name];
          assert |graph - {name}| < |graph| by { assert (graph - {name}).Keys == graph.Keys - {name}; }
          graph := graph - {name};
          ver := ver - {name};
          changed := true;
        }
      }
      ShrinkEnd(g0, v0, tooOld, graph, ver, removed);
    }

    /** The white dependency to descend into, or the gray one that closes a cycle. */
    method Scan(colors: map<Name, Color>, cur: Name) returns (next: Option<Name>)
      requires Closed(graph) && colors.Keys == graph.Keys && cur in graph
      ensures next.Some? ==> next.value in graph && Edge(graph, cur, next.value) && colors[next.value] != Black
      ensures next.None? ==> forall k :: 0 <= k < |graph[cur]| ==> colors[graph[cur][k].0] == Black
    {
      var deps := graph[cur];
      for k := 0 to |deps|
        invariant forall j :: 0 <= j < k ==> colors[deps[j].0] == Black
      {
        var child := deps[k].0;
        if colors[child] == Gray || colors[child] == White {
          return Some(child);
        }
      }
      next := None;
    }

    method Find(path: seq<Name>, n: Name) returns (i: nat)
      ensures i <= |path| && (i < |path| ==> path[i] == n) && (i == |path| ==> n !in path)
    {
      i := 0;
      while i < |path| && path[i] != n
        invariant i <= |path| && n !in path[..i]
      {
        i := i + 1;
      }
    }

    /** Explores everything reachable from a white root; returns a cycle or leaves all of it black. */
    method Explore(root: Name, colors0: map<Name, Color>, ghost order0: seq<Name>)
      returns (cycle: Option<seq<Name>>, colors: map<Name, Color>, ghost order: seq<Name>)
      requires Closed(graph) && Searching(graph, colors0, order0, []) && root in graph && colors0[root] == White
      ensures cycle.Some? ==> Cycle(graph, cycle.value)
      ensures cycle.None? ==> Searching(graph, colors, order, []) && Whites(colors) < Whites(colors0)
    {
      var path: seq<Name> := [];
      var cur := root;
      Enter(graph, colors0, order0, path, root);
      colors, order := colors0[root := Gray], order0;
      while true
        invariant Searching(graph, colors, order, path + [cur])
        invariant Whites(colors) < Whites(colors0)
        decreases Whites(colors), |path|
      {
        assert (path + [cur])[|path|] == cur;
        var next := Scan(colors, cur);
        if next.Some? {
          var child := next.value;
          if colors[child] == Gray {
            var start := Find(path, child);
            ReportCloses(graph, colors, order, path, cur, start, child);
            return Some(path[start..] + [cur, child]), colors, order;
          }
          Enter(graph, colors, order, path + [cur], child);
          path := path + [cur];
          cur := child;
          colors := colors[cur := Gray];
        } else {
          LeaveTop(graph, colors, order, path, cur);
          colors := colors[cur := Black];
          order := order + [cur];
          if path == [] {
            return None, colors, order;
          }
          assert path == path[..|path| - 1] + [path[|path| - 1]];
          cur := path[|path| - 1];
          path := path[..|path| - 1];
        }
      }
    }

    /** On a dependency-closed graph: no cycle is reported exactly if some rank strictly falls along
        every edge, and then a complete load order exists; a reported sequence is a real cycle. */
    method FindCycles() returns (cycle: Option<seq<Name>>)
      requires Closed(graph)
      ensures cycle.None? <==> exists rank :: Ranked(graph, rank)
      ensures cycle.None? ==> exists order :: Complete(graph, order)
      ensures cycle.Some? ==> Cycle(graph, cycle.value)
    {
      var colors := map n | n in graph :: White;
      ghost var order: seq<Name> := [];
      var white := graph.Keys;
      while white != {}
        invariant Searching(graph, colors, order, []) && white == Whites(colors)
        decreases white
      {
        var root :| root in white;
        var found, colors', order' := Explore(root, colors, order);
        if found.Some? {
          forall rank ensures !Ranked(graph, rank) {
            if Ranked(graph, rank) { RankExcludesCycle(graph, rank, found.value); }
          }
          return found;
        }
        colors, order := colors', order';
        white := set n | n in colors && colors[n] == White;
      }
      assert forall n :: n in colors && n !in order ==> n in Whites(colors);
      assert Complete(graph, order);
      var _ := OrderGivesRank(graph, order);
      cycle := None;
    }

    /** Passing the whole check means: what is left is the greatest consistent set and a complete
        load order for it exists. */
    method CheckDependencies() returns (cycle: Option<seq<Name>>)
      requires Valid()
      modifies this`graph, this`ver
      ensures Consistent(old(graph), old(ver), tooOld, graph.Keys)
      ensures forall other: set<Name> :: Consistent(old(graph), old(ver), tooOld, other) ==> other <= graph.Keys
      ensures forall n :: n in graph ==> graph[n] == old(graph)[n]
      ensures cycle.None? <==> exists order :: Complete(graph, order)
      ensures cycle.Some? ==> Cycle(graph, cycle.value)
    {
      var removed := RemoveFailedDependants();
      assert Closed(graph);
      cycle := FindCycles();
      if cycle.Some? {
        forall order ensures !Complete(graph, order) {
          if Complete(graph, order) {
            var rank := OrderGivesRank(graph, order);
          }
        }
      }
    }
  }
}
