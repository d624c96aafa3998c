/** Loading an executable and the libraries it needs: a depth-first walk of the dependency graph, which
    may have cycles, that appends to one list of loaded objects. */
module Linker {

  import opened Basics

  type Name = string

  /** The objects that can be found, opened and mapped, each with the names it needs, in order. */
  type Graph = map<Name, seq<Name>>

  // ---------------------------------------------------------------- reachability

  predicate Edge(g: Graph, a: Name, b: Name) {
    a in g && b in g[a]
  }

  ghost predicate IsPath(g: Graph, p: seq<Name>) {
    |p| > 0 && forall i :: 0 <= i < |p| - 1 ==> Edge(g, p[i], p[i + 1])
  }

  ghost predicate Reachable(g: Graph, a: Name, b: Name) {
    exists p :: IsPath(g, p) && p[0] == a && p[|p| - 1] == b
  }

  lemma ReachSelf(g: Graph, a: Name)
    ensures Reachable(g, a, a)
  {
    assert IsPath(g, [a]);
  }

  lemma ReachStep(g: Graph, a: Name, b: Name, c: Name)
    requires Reachable(g, a, b) && Edge(g, b, c)
    ensures Reachable(g, a, c)
  {
    var p :| IsPath(g, p) && p[0] == a && p[|p| - 1] == b;
    assert IsPath(g, p + [c]);
  }

  /** A name is closed when everything it needs is loaded. */
  ghost predicate Closed(g: Graph, loaded: seq<Name>, n: Name) {
    n in g && forall d :: d in g[n] ==> d in loaded
  }

  lemma {:induction false} ClosedReach(g: Graph, loaded: seq<Name>, p: seq<Name>)
    requires IsPath(g, p) && p[0] in loaded && forall n :: n in loaded ==> Closed(g, loaded, n)
    ensures p[|p| - 1] in loaded
    decreases |p|
  {
    if |p| > 1 {
      assert Edge(g, p[0], p[1]);
      var q := p[1..];
      forall i | 0 <= i < |q| - 1 ensures Edge(g, q[i], q[i + 1]) {
        var k := i + 1;
        assert Edge(g, p[k], p[k + 1]);
      }
      ClosedReach(g, loaded, p[1..]);
    }
  }

  // ---------------------------------------------------------------- the list of loaded objects

  /** Some object loaded earlier needs this one. */
  ghost predicate Introduced(g: Graph, loaded: seq<Name>, i: nat) {
    i == 0 || exists j :: 0 <= j < i && j < |loaded| && i < |loaded| && Edge(g, loaded[j], loaded[i])
  }

  /** `name` is the first thing that the object at `j` needs and that is not loaded, and nothing that was
      loaded after it needs anything more. */
  ghost predicate NextNeed(g: Graph, loaded: seq<Name>, j: nat, name: Name) {
    && j < |loaded| && name !in loaded && FirstNeed(g, loaded, loaded[j], name)
    && forall i :: j < i < |loaded| ==> Closed(g, loaded, loaded[i])
  }

  ghost predicate FirstNeed(g: Graph, loaded: seq<Name>, n: Name, name: Name) {
    n in g && exists k :: 0 <= k < |g[n]| && g[n][k] == name && forall i :: 0 <= i < k ==> g[n][i] in loaded
  }

  /** Depth first: what comes next is the first open need of the latest object that has one. */
  ghost predicate DepthFirst(g: Graph, loaded: seq<Name>, name: Name) {
    exists j: nat :: NextNeed(g, loaded, j, name)
  }

  ghost predicate Preorder(g: Graph, loaded: seq<Name>) {
    forall i :: 0 < i < |loaded| ==> DepthFirst(g, loaded[..i], loaded[i])
  }

  ghost predicate Grown(g: Graph, loaded: seq<Name>) {
    && NoDup(loaded)
    && (forall n :: n in loaded ==> n in g)
    && (forall i :: 0 <= i < |loaded| ==> Introduced(g, loaded, i))
    && Preorder(g, loaded)
  }

  /** At most one name can come next. */
  lemma NextIsOne(g: Graph, loaded: seq<Name>, a: Name, b: Name)
    requires DepthFirst(g, loaded, a) && DepthFirst(g, loaded, b)
    ensures a == b
  {
    var i: nat :| NextNeed(g, loaded, i, a);
    var j: nat :| NextNeed(g, loaded, j, b);
    NeedIsOpen(g, loaded, loaded[i], a);
    NeedIsOpen(g, loaded, loaded[j], b);
    if i < j { LaterClosed(g, loaded, i, a, j); }
    if j < i { LaterClosed(g, loaded, j, b, i); }
    var k :| 0 <= k < |g[loaded[i]]| && g[loaded[i]][k] == a && forall n :: 0 <= n < k ==> g[loaded[i]][n] in loaded;
    var l :| 0 <= l < |g[loaded[j]]| && g[loaded[j]][l] == b && forall n :: 0 <= n < l ==> g[loaded[j]][n] in loaded;
    assert k < l ==> a in loaded;
    assert l < k ==> b in loaded;
  }

  lemma LaterClosed(g: Graph, loaded: seq<Name>, j: nat, name: Name, i: nat)
    requires NextNeed(g, loaded, j, name) && j < i < |loaded|
    ensures Closed(g, loaded, loaded[i])
  {
  }

  lemma NeedIsOpen(g: Graph, loaded: seq<Name>, n: Name, name: Name)
    requires FirstNeed(g, loaded, n, name) && name !in loaded
    ensures !Closed(g, loaded, n)
  {
    assert name in g[n];
  }

  lemma FrontIsPreorder(g: Graph, a: seq<Name>)
    requires Preorder(g, a) && |a| > 0
    ensures Preorder(g, a[..|a| - 1])
  {
    hide DepthFirst;
    var front := a[..|a| - 1];
    forall i | 0 < i < |front| ensures DepthFirst(g, front[..i], front[i]) {
      assert front[..i] == a[..i];
      assert DepthFirst(g, a[..i], a[i]);
    }
  }

  /** So the order is determined by the graph and the executable. */
  lemma {:induction false} OrderIsDetermined(g: Graph, a: seq<Name>, b: seq<Name>)
    requires Preorder(g, a) && Preorder(g, b) && |a| > 0 && |b| > 0 && a[0] == b[0] && |a| <= |b|
    ensures a <= b
    decreases |a|
  {
    hide DepthFirst;
    if |a| == 1 {
      assert a == b[..1];
    } else {
      var front := a[..|a| - 1];
      FrontIsPreorder(g, a);
      OrderIsDetermined(g, front, b);
      var n := |front|;
      assert b[..n] == a[..n];
      assert DepthFirst(g, a[..n], a[n]) && DepthFirst(g, b[..n], b[n]);
      NextIsOne(g, a[..n], a[n], b[n]);
      assert a == b[..n] + [b[n]];
    }
  }

  /** Something a loaded object needs cannot be loaded. */
  ghost predicate Missing(g: Graph, loaded: seq<Name>) {
    exists n, d :: n in loaded && Edge(g, n, d) && d !in g
  }

  lemma {:induction false} GrownReach(g: Graph, loaded: seq<Name>, i: nat)
    requires Grown(g, loaded) && i < |loaded|
    ensures Reachable(g, loaded[0], loaded[i])
  {
    if i == 0 {
      ReachSelf(g, loaded[0]);
    } else {
      assert Introduced(g, loaded, i);
      var j :| 0 <= j < i && Edge(g, loaded[j], loaded[i]);
      GrownReach(g, loaded, j);
      ReachStep(g, loaded[0], loaded[j], loaded[i]);
    }
  }

  /** Loading one more object. */
  lemma GrownPush(g: Graph, loaded: seq<Name>, name: Name)
    requires Grown(g, loaded) && name in g && name !in loaded
    requires loaded == [] || DepthFirst(g, loaded, name)
    ensures Grown(g, loaded + [name])
  {
    var more := loaded + [name];
    if loaded != [] {
      NextHasEdge(g, loaded, name);
    }
    forall i | 0 < i < |more| ensures DepthFirst(g, more[..i], more[i]) {
      if i < |loaded| {
        assert more[..i] == loaded[..i];
        assert DepthFirst(g, loaded[..i], loaded[i]);
      } else {
        assert more[..i] == loaded;
      }
    }
    forall i | 0 <= i < |more| ensures Introduced(g, more, i) {
      if i < |loaded| {
        assert Introduced(g, loaded, i);
        if i > 0 {
          var j :| 0 <= j < i && Edge(g, loaded[j], loaded[i]);
          assert Edge(g, more[j], more[i]);
        }
      } else if loaded != [] {
        var n :| n in loaded && Edge(g, n, name);
        var j :| 0 <= j < |loaded| && loaded[j] == n;
        assert Edge(g, more[j], more[i]);
      }
    }
  }

  lemma NextHasEdge(g: Graph, loaded: seq<Name>, name: Name)
    requires DepthFirst(g, loaded, name)
    ensures exists n :: n in loaded && Edge(g, n, name)
  {
    var j: nat :| NextNeed(g, loaded, j, name);
    assert loaded[j] in loaded && Edge(g, loaded[j], name);
  }

  /** Inside the loop over the needs of `name`: everything after it is closed, so its next open need comes next. */
  lemma LoopIsDepthFirst(g: Graph, loaded: seq<Name>, start: seq<Name>, name: Name, i: nat)
    requires name in g && i < |g[name]| && g[name][i] !in loaded && NoDup(loaded)
    requires start + [name] <= loaded && forall k :: 0 <= k < i ==> g[name][k] in loaded
    requires forall n :: n in loaded && n !in start && n != name ==> Closed(g, loaded, n)
    ensures DepthFirst(g, loaded, g[name][i])
  {
    var j := |start|;
    assert loaded[j] == name;
    assert FirstNeed(g, loaded, name, g[name][i]);
    forall m | j < m < |loaded| ensures Closed(g, loaded, loaded[m]) {
      assert loaded[m] in loaded && loaded[m] != name;
      assert loaded[m] !in start by {
        forall l | 0 <= l < |start| ensures start[l] != loaded[m] { assert start[l] == loaded[l]; }
      }
    }
    assert NextNeed(g, loaded, j, g[name][i]);
  }

  // ---------------------------------------------------------------- the loader

  ghost function Unloaded(g: Graph, loaded: seq<Name>): set<Name> {
    set n | n in g && n !in loaded
  }

  lemma PrefixMembers(a: seq<Name>, b: seq<Name>)
    requires a <= b
    ensures forall n :: n in a ==> n in b
  {
    assert b == a + b[|a|..];
  }

  lemma FewerLeft(g: Graph, a: seq<Name>, b: seq<Name>)
    requires a <= b
    ensures |Unloaded(g, b)| <= |Unloaded(g, a)|
    ensures (exists n :: n in g && n in b && n !in a) ==> |Unloaded(g, b)| < |Unloaded(g, a)|
  {
    var x, y := Unloaded(g, b), Unloaded(g, a);
    PrefixMembers(a, b);
    assert x <= y;
    Subset(x, y);
    if n :| n in g && n in b && n !in a {
      assert n in y && n !in x;
      assert x <= y - {n};
      Subset(x, y - {n});
    }
  }

  lemma {:induction false} Subset(x: set<Name>, y: set<Name>)
    requires x <= y
    ensures |x| <= |y|
    decreases |x|
  {
    if x != {} {
      var n :| n in x;
      Subset(x - {n}, y - {n});
    }
  }

  class Loader {
    const graph: Graph
    var loaded: seq<Name>

    constructor (graph: Graph)
      ensures this.graph == graph && loaded == []
    {
      this.graph := graph;
      loaded := [];
    }

    method IsLoaded(name: Name) returns (found: bool)
      ensures found <==> name in loaded
    {
      for i := 0 to |loaded|
        invariant name !in loaded[..i]
      {
        if loaded[i] == name {
          return true;
        }
      }
      assert loaded[..|loaded|] == loaded;
      return false;
    }

    /** load_object: false stands for the exit on a library that cannot be loaded. */
    method LoadObject(name: Name) returns (ok: bool)
      requires Grown(graph, loaded) && name in graph && name !in loaded
      requires loaded == [] || DepthFirst(graph, loaded, name)
      modifies this
      ensures Grown(graph, loaded) && old(loaded) + [name] <= loaded
      ensures ok ==> forall n :: n in loaded && n !in old(loaded) ==> Closed(graph, loaded, n)
      ensures !ok ==> Missing(graph, loaded)
      decreases |Unloaded(graph, loaded)|, 0
    {
      hide Grown;
      GrownPush(graph, loaded, name);
      loaded := loaded + [name];
      FewerLeft(graph, old(loaded), loaded);
      var needs := graph[name];
      for i := 0 to |needs|
        invariant Grown(graph, loaded) && old(loaded) + [name] <= loaded
        invariant forall n :: n in loaded && n !in old(loaded) && n != name ==> Closed(graph, loaded, n)
        invariant forall k :: 0 <= k < i ==> needs[k] in loaded
      {
        var found := IsLoaded(needs[i]);
        if found {
          continue;
        }
        ghost var before := loaded;
        PrefixMembers(old(loaded) + [name], before);
        FewerLeft(graph, old(loaded), before);
        GrownNoDup(graph, before);
        assert name in before;
        LoopIsDepthFirst(graph, before, old(loaded), name, i);
        ok := LoadLibrary(needs[i]);
        if !ok {
          return;
        }
        StillClosed(graph, before, loaded, old(loaded), name);
        PrefixMembers(before + [needs[i]], loaded);
      }
      ok := true;
      assert forall d :: d in needs ==> d in loaded;
    }

    method LoadLibrary(name: Name) returns (ok: bool)
      requires Grown(graph, loaded) && name !in loaded
      requires DepthFirst(graph, loaded, name)
      modifies this
      ensures Grown(graph, loaded) && old(loaded) <= loaded
      ensures ok ==> old(loaded) + [name] <= loaded
      ensures ok ==> forall n :: n in loaded && n !in old(loaded) ==> Closed(graph, loaded, n)
      ensures !ok ==> Missing(graph, loaded)
      decreases |Unloaded(graph, loaded)|, 1
    {
      if name !in graph {
        NextHasEdge(graph, loaded, name);
        return false;
      }
      ok := LoadObject(name);
    }

    /** load_exec: it succeeds exactly when everything reachable can be loaded; then the list holds
        the executable first and every reachable object once, and nothing else. */
    method LoadExec(path: Name) returns (ok: bool)
      requires loaded == []
      modifies this
      ensures ok <==> forall n :: Reachable(graph, path, n) ==> n in graph
      ensures ok ==> NoDup(loaded) && |loaded| > 0 && loaded[0] == path
      ensures ok ==> forall n :: n in loaded <==> Reachable(graph, path, n)
      ensures ok ==> (forall i :: 0 <= i < |loaded| ==> Introduced(graph, loaded, i)) && Preorder(graph, loaded)
    {
      hide Reachable;
      ReachSelf(graph, path);
      if path !in graph {
        return false;
      }
      ok := LoadObject(path);
      assert loaded[0] == path by { assert ([path])[0] == path; }
      if ok {
        AllReachable(graph, path, loaded);
      } else {
        MissingReachable(graph, path, loaded);
      }
    }
  }

  /** What was closed stays closed, and what the call added is closed. */
  lemma StillClosed(g: Graph, before: seq<Name>, after: seq<Name>, start: seq<Name>, name: Name)
    requires before <= after
    requires forall n :: n in before && n !in start && n != name ==> Closed(g, before, n)
    requires forall n :: n in after && n !in before ==> Closed(g, after, n)
    ensures forall n :: n in after && n !in start && n != name ==> Closed(g, after, n)
  {
    forall n | n in after && n !in start && n != name ensures Closed(g, after, n) {
      if n in before {
        assert Closed(g, before, n);
        assert forall d :: d in before ==> d in after;
      }
    }
  }

  lemma GrownNoDup(g: Graph, loaded: seq<Name>)
    requires Grown(g, loaded)
    ensures NoDup(loaded)
  {
  }

  lemma AllReachable(g: Graph, path: Name, loaded: seq<Name>)
    requires Grown(g, loaded) && |loaded| > 0 && loaded[0] == path
    requires forall n :: n in loaded ==> Closed(g, loaded, n)
    ensures forall n :: n in loaded <==> Reachable(g, path, n)
    ensures forall n :: Reachable(g, path, n) ==> n in g
  {
    forall n ensures n in loaded <==> Reachable(g, path, n) {
      if n in loaded {
        var i :| 0 <= i < |loaded| && loaded[i] == n;
        GrownReach(g, loaded, i);
      }
      if Reachable(g, path, n) {
        var p :| IsPath(g, p) && p[0] == path && p[|p| - 1] == n;
        ClosedReach(g, loaded, p);
      }
    }
  }

  lemma MissingReachable(g: Graph, path: Name, loaded: seq<Name>)
    requires Grown(g, loaded) && |loaded| > 0 && loaded[0] == path && Missing(g, loaded)
    ensures exists n :: Reachable(g, path, n) && n !in g
  {
    var n, d :| n in loaded && Edge(g, n, d) && d !in g;
    var i :| 0 <= i < |loaded| && loaded[i] == n;
    GrownReach(g, loaded, i);
    ReachStep(g, path, n, d);
  }
}
