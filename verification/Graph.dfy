/** The dependency graph over guests and its two depth-first searches:
    TopologicalOrder (internal/engine/guests.go) and findDependencyCycle
    (internal/config/config.go). */
module Guests {
  datatype GuestConfig = GuestConfig(name: string, alwaysOn: bool, schedule: string, dependsOn: seq<string>)

  type Graph = map<string, seq<string>>

  /** The byName index; of two guests with one name the later wins. */
  function ByName(guests: seq<GuestConfig>): (g: Graph)
    ensures forall n :: n in g <==> exists i :: 0 <= i < |guests| && guests[i].name == n
  {
    if guests == [] then map[]
    else ByName(guests[..|guests| - 1])[guests[|guests| - 1].name := guests[|guests| - 1].dependsOn]
  }

  ghost predicate UniqueNames(guests: seq<GuestConfig>) {
    forall i, j :: 0 <= i < j < |guests| ==> guests[i].name != guests[j].name
  }

  /** The index finds each guest's own dependencies. */
  lemma {:induction false} ByNameGives(guests: seq<GuestConfig>, i: nat)
    requires UniqueNames(guests) && i < |guests|
    ensures ByName(guests)[guests[i].name] == guests[i].dependsOn
  {
    if i < |guests| - 1 { ByNameGives(guests[..|guests| - 1], i); }
  }

  /** Guest i names guest j as a dependency. */
  ghost predicate DependsOn(guests: seq<GuestConfig>, i: int, j: int) {
    0 <= i < |guests| && 0 <= j < |guests| && guests[j].name in guests[i].dependsOn
  }

  /** Guests each depending on the next, the last being the first. */
  ghost predicate Closes(guests: seq<GuestConfig>, walk: seq<int>) {
    && |walk| > 1 && walk[0] == walk[|walk| - 1]
    && forall k :: 0 <= k < |walk| - 1 ==> DependsOn(guests, walk[k], walk[k + 1])
  }

  /** Every guest stands once in the order, after all guests it depends on. */
  ghost predicate InOrder(guests: seq<GuestConfig>, order: seq<string>) {
    && (forall k, l :: 0 <= k < l < |order| ==> order[k] != order[l])
    && (forall i :: 0 <= i < |guests| ==> guests[i].name in order)
    && (forall i, j, l :: DependsOn(guests, i, j) && 0 <= l < |order| && order[l] == guests[i].name ==>
          guests[j].name in order[..l])
  }
}

module Ordering {
  import opened Prelude
  import opened Guests

  /** A dependency counts only when it names a known guest. */
  predicate Edge(g: Graph, a: string, b: string) { a in g && b in g[a] && b in g }

  ghost predicate Walk(g: Graph, p: seq<string>) {
    && |p| > 0 && p[0] in g
    && forall i :: 0 <= i < |p| - 1 ==> Edge(g, p[i], p[i + 1])
  }

  ghost predicate Cyclic(g: Graph) {
    exists p :: Walk(g, p) && |p| > 1 && p[0] == p[|p| - 1]
  }

  ghost predicate Distinct(xs: seq<string>) { forall i, j :: 0 <= i < j < |xs| ==> xs[i] != xs[j] }

  /** Each guest once, and every known dependency before its dependents. */
  ghost predicate Topological(g: Graph, order: seq<string>) {
    && Distinct(order)
    && (forall n :: n in order ==> n in g)
    && forall i, dep :: 0 <= i < |order| && Edge(g, order[i], dep) ==> dep in order[..i]
  }

  datatype Color = Gray | Black

  /** The state of a search: white guests have no colour, gray ones are on the path
      of calls in progress, black ones are finished and ordered. */
  ghost predicate Searching(g: Graph, color: map<string, Color>, path: seq<string>, order: seq<string>) {
    && (forall n :: n in color ==> n in g)
    && (forall n :: n in path <==> n in color && color[n] == Gray)
    && (forall n :: n in order <==> n in color && color[n] == Black)
    && (path != [] ==> Walk(g, path))
    && Topological(g, order)
  }

  lemma Enter(g: Graph, color: map<string, Color>, path: seq<string>, order: seq<string>, name: string)
    requires Searching(g, color, path, order) && name in g && name !in color
    requires path != [] ==> Edge(g, path[|path| - 1], name)
    ensures Searching(g, color[name := Gray], path + [name], order)
  {
    var path' := path + [name];
    assert forall n :: n in path' <==> n in path || n == name;
  }

  lemma Leave(g: Graph, color: map<string, Color>, path: seq<string>, order: seq<string>, name: string)
    requires Searching(g, color, path + [name], order) && name in g && name !in path
    requires path != [] ==> Walk(g, path)
    requires forall dep :: Edge(g, name, dep) ==> dep in order
    ensures Searching(g, color[name := Black], path, order + [name])
  {
    var path', order' := path + [name], order + [name];
    assert name in path';
    assert forall n :: n in path' <==> n in path || n == name;
    assert forall n :: n in order' <==> n in order || n == name;
    forall i, dep | 0 <= i < |order'| && Edge(g, order'[i], dep) ensures dep in order'[..i] {
      assert order'[..i] == order[..i];
    }
  }

  lemma GrayClosesCycle(g: Graph, path: seq<string>, dep: string)
    requires path != [] && Walk(g, path) && dep in path && Edge(g, path[|path| - 1], dep)
    ensures Cyclic(g)
  {
    var k :| 0 <= k < |path| && path[k] == dep;
    var p := path[k..] + [dep];
    assert Walk(g, p);
  }

  lemma PositionsFall(g: Graph, order: seq<string>, p: seq<string>, i: nat, at: nat) returns (k: nat)
    requires Topological(g, order) && (forall n :: n in g ==> n in order)
    requires Walk(g, p) && i < |p| && at < |order| && order[at] == p[0]
    ensures k < |order| && order[k] == p[i] && k + i <= at
  {
    k := at;
    var j := 0;
    while j < i
      invariant 0 <= j <= i && k < |order| && order[k] == p[j] && k + j <= at
    {
      assert Edge(g, order[k], p[j + 1]);
      assert p[j + 1] in order[..k];
      var m :| 0 <= m < |order[..k]| && order[..k][m] == p[j + 1];
      k, j := m, j + 1;
    }
  }

  /** A full topological order leaves no room for a cycle. */
  lemma OrderMeansAcyclic(g: Graph, order: seq<string>)
    requires Topological(g, order) && (forall n :: n in g ==> n in order)
    ensures !Cyclic(g)
  {
    forall p | Walk(g, p) && |p| > 1 ensures p[0] != p[|p| - 1] {
      var at :| 0 <= at < |order| && order[at] == p[0];
      var k := PositionsFall(g, order, p, |p| - 1, at);
    }
  }

  lemma DistinctSameSet(xs: seq<string>, ys: seq<string>)
    requires Distinct(xs) && Distinct(ys) && forall n :: n in xs <==> n in ys
    ensures multiset(xs) == multiset(ys)
  {
    forall n ensures multiset(xs)[n] == multiset(ys)[n] {
      CountDistinct(xs, n);
      CountDistinct(ys, n);
    }
  }

  lemma {:induction false} CountDistinct(xs: seq<string>, n: string)
    requires Distinct(xs)
    ensures multiset(xs)[n] == if n in xs then 1 else 0
  {
    if xs != [] {
      CountDistinct(xs[1..], n);
      assert xs == [xs[0]] + xs[1..];
    }
  }

  // ----- what the index says about the guests themselves -----

  lemma EdgeIsDependency(guests: seq<GuestConfig>, i: int, j: int)
    requires UniqueNames(guests) && 0 <= i < |guests| && 0 <= j < |guests|
    ensures Edge(ByName(guests), guests[i].name, guests[j].name) <==> DependsOn(guests, i, j)
  {
    ByNameGives(guests, i);
  }

  ghost function IndexOf(guests: seq<GuestConfig>, n: string): (i: int)
    requires n in ByName(guests)
    ensures 0 <= i < |guests| && guests[i].name == n
  {
    var i :| 0 <= i < |guests| && guests[i].name == n;
    i
  }

  lemma CycleOfWalk(guests: seq<GuestConfig>, p: seq<string>) returns (walk: seq<int>)
    requires UniqueNames(guests) && Walk(ByName(guests), p) && |p| > 1 && p[0] == p[|p| - 1]
    ensures Closes(guests, walk)
  {
    var g := ByName(guests);
    forall k | 0 <= k < |p| ensures p[k] in g {
      if k < |p| - 1 { assert Edge(g, p[k], p[k + 1]); } else { assert Edge(g, p[k - 1], p[k]); }
    }
    walk := seq(|p|, k requires 0 <= k < |p| => IndexOf(guests, p[k]));
    forall k | 0 <= k < |walk| - 1 ensures DependsOn(guests, walk[k], walk[k + 1]) {
      assert Edge(g, p[k], p[k + 1]);
      EdgeIsDependency(guests, walk[k], walk[k + 1]);
    }
  }

  lemma WalkOfCycle(guests: seq<GuestConfig>, walk: seq<int>)
    requires UniqueNames(guests) && Closes(guests, walk)
    ensures Cyclic(ByName(guests))
  {
    CycleIndices(guests, walk);
    hide ByName, Edge, UniqueNames, NamesOf;
    var p := NamesOf(guests, walk);
    forall k | 0 <= k < |p| - 1 ensures Edge(ByName(guests), p[k], p[k + 1]) {
      assert DependsOn(guests, walk[k], walk[k + 1]);
      EdgeIsDependency(guests, walk[k], walk[k + 1]);
    }
    assert DependsOn(guests, walk[0], walk[1]) && p[0] in ByName(guests);
    assert Walk(ByName(guests), p);
  }

  function NamesOf(guests: seq<GuestConfig>, walk: seq<int>): (p: seq<string>)
    requires forall k :: 0 <= k < |walk| ==> 0 <= walk[k] < |guests|
    ensures |p| == |walk| && forall k :: 0 <= k < |walk| ==> p[k] == guests[walk[k]].name
  {
    if walk == [] then [] else [guests[walk[0]].name] + NamesOf(guests, walk[1..])
  }

  lemma CycleIndices(guests: seq<GuestConfig>, walk: seq<int>)
    requires Closes(guests, walk)
    ensures forall k :: 0 <= k < |walk| ==> 0 <= walk[k] < |guests|
  {
    forall k | 0 <= k < |walk| ensures 0 <= walk[k] < |guests| {
      if k < |walk| - 1 {
        assert DependsOn(guests, walk[k], walk[k + 1]);
      } else {
        assert DependsOn(guests, walk[k - 1], walk[k]);
      }
    }
  }

  /** With unique names, a cycle of the graph is a cycle of the guests. */
  lemma CyclicMeans(guests: seq<GuestConfig>)
    requires UniqueNames(guests)
    ensures Cyclic(ByName(guests)) <==> exists walk :: Closes(guests, walk)
  {
    if Cyclic(ByName(guests)) {
      var p :| Walk(ByName(guests), p) && |p| > 1 && p[0] == p[|p| - 1];
      var walk := CycleOfWalk(guests, p);
    }
    forall walk | Closes(guests, walk) ensures Cyclic(ByName(guests)) { WalkOfCycle(guests, walk); }
  }

  /** and a topological order is an order of the guests. */
  lemma TopologicalMeans(guests: seq<GuestConfig>, order: seq<string>)
    requires UniqueNames(guests) && Topological(ByName(guests), order)
    requires forall i :: 0 <= i < |guests| ==> guests[i].name in order
    ensures InOrder(guests, order)
  {
    forall i, j, l | DependsOn(guests, i, j) && 0 <= l < |order| && order[l] == guests[i].name
      ensures guests[j].name in order[..l]
    {
      EdgeIsDependency(guests, i, j);
    }
  }

  class Sorter {
    const g: Graph
    var color: map<string, Color>
    var order: seq<string>
    ghost var path: seq<string>

    constructor (g: Graph)
      ensures this.g == g && color == map[] && order == [] && path == []
    {
      this.g := g;
      color, order, path := map[], [], [];
    }

    method Visit(name: string) returns (ok: bool)
      requires Searching(g, color, path, order) && name in g && name !in color
      requires path != [] ==> Edge(g, path[|path| - 1], name)
      modifies this
      ensures ok ==> Searching(g, color, path, order) && path == old(path)
      ensures ok ==> name in order && old(color).Keys <= color.Keys
      ensures !ok ==> Cyclic(g)
      decreases g.Keys - color.Keys
    {
      hide Topological, Walk, Cyclic;
      Enter(g, color, path, order, name);
      color := color[name := Gray];
      path := path + [name];
      var deps := g[name];
      var i := 0;
      while i < |deps|
        invariant 0 <= i <= |deps|
        invariant Searching(g, color, path, order) && path == old(path) + [name]
        invariant old(color).Keys + {name} <= color.Keys
        invariant forall j :: 0 <= j < i && deps[j] in g ==> deps[j] in order
      {
        var dep := deps[i];
        if dep in color && color[dep] == Gray {
          GrayClosesCycle(g, path, dep);
          return false;
        }
        if dep !in color && dep in g {
          assert Edge(g, name, dep);
          var sub := Visit(dep);
          if !sub { return false; }
        }
        i := i + 1;
      }
      assert path[..|path| - 1] == old(path);
      Leave(g, color, old(path), order, name);
      color := color[name := Black];
      path := path[..|path| - 1];
      order := order + [name];
      return true;
    }
  }

  /** TopologicalOrder fails exactly on cyclic graphs; otherwise it lists every guest
      once with each known dependency before its dependents. Any listing of the names
      gives an order; the source lists them sorted. */
  method TopologicalOrder(guests: seq<GuestConfig>, names: seq<string>) returns (res: Option<seq<string>>)
    requires forall n :: n in names <==> n in ByName(guests)
    ensures res.None? <==> Cyclic(ByName(guests))
    ensures res.Some? ==> Topological(ByName(guests), res.value)
    ensures res.Some? ==> forall n :: n in res.value <==> n in names
    ensures res.Some? && Distinct(names) ==> multiset(res.value) == multiset(names)
    ensures UniqueNames(guests) ==> (res.None? <==> exists walk :: Closes(guests, walk))
    ensures UniqueNames(guests) && res.Some? ==> InOrder(guests, res.value)
  {
    if UniqueNames(guests) { CyclicMeans(guests); }
    hide Walk, Edge, Cyclic, ByName, Closes, InOrder, UniqueNames;
    var search := new Sorter(ByName(guests));
    var i := 0;
    while i < |names|
      invariant 0 <= i <= |names| && search.g == ByName(guests)
      invariant Searching(search.g, search.color, search.path, search.order) && search.path == []
      invariant forall j :: 0 <= j < i ==> names[j] in search.order
    {
      if names[i] !in search.color {
        var ok := search.Visit(names[i]);
        if !ok { return None; }
      }
      i := i + 1;
    }
    OrderMeansAcyclic(search.g, search.order);
    if Distinct(names) { DistinctSameSet(search.order, names); }
    if UniqueNames(guests) { TopologicalMeans(guests, search.order); }
    return Some(search.order);
  }

  class CycleFinder {
    const g: Graph
    var color: map<string, Color>
    var path: seq<string>
    ghost var order: seq<string>

    constructor (g: Graph)
      ensures this.g == g && color == map[] && order == [] && path == []
    {
      this.g := g;
      color, order, path := map[], [], [];
    }

    /** Returns the path to a repeated guest, or [] when the search finished cleanly. */
    method Visit(name: string) returns (cycle: seq<string>)
      requires Searching(g, color, path, order) && name in g && name !in color
      requires path != [] ==> Edge(g, path[|path| - 1], name)
      modifies this
      ensures cycle == [] ==> Searching(g, color, path, order) && path == old(path)
      ensures cycle == [] ==> name in order && old(color).Keys <= color.Keys
      ensures cycle != [] ==> DescribesCycle(g, cycle)
      decreases g.Keys - color.Keys
    {
      hide Topological, Walk, Cyclic;
      Enter(g, color, path, order, name);
      color := color[name := Gray];
      path := path + [name];
      var deps := g[name];
      var i := 0;
      while i < |deps|
        invariant 0 <= i <= |deps|
        invariant Searching(g, color, path, order) && path == old(path) + [name]
        invariant old(color).Keys + {name} <= color.Keys
        invariant forall j :: 0 <= j < i && deps[j] in g ==> deps[j] in order
      {
        var dep := deps[i];
        if dep in color && color[dep] == Gray {
          GrayDescribesCycle(g, path, dep);
          return path + [dep];
        }
        if dep !in color && dep in g {
          assert Edge(g, name, dep);
          var sub := Visit(dep);
          if sub != [] { return sub; }
        }
        i := i + 1;
      }
      assert path[..|path| - 1] == old(path);
      Leave(g, color, old(path), order, name);
      path := path[..|path| - 1];
      color := color[name := Black];
      order := order + [name];
      return [];
    }
  }

  lemma GrayDescribesCycle(g: Graph, path: seq<string>, dep: string)
    requires path != [] && Walk(g, path) && dep in path && Edge(g, path[|path| - 1], dep)
    ensures DescribesCycle(g, path + [dep])
  {
    assert (path + [dep])[..|path|] == path;
  }

  /** A walk whose last guest already occurs earlier in it. */
  ghost predicate DescribesCycle(g: Graph, cycle: seq<string>) {
    |cycle| > 1 && Walk(g, cycle) && cycle[|cycle| - 1] in cycle[..|cycle| - 1]
  }

  lemma DescribedCycleExists(g: Graph, cycle: seq<string>)
    requires DescribesCycle(g, cycle)
    ensures Cyclic(g)
  {
    var path := cycle[..|cycle| - 1];
    assert Edge(g, cycle[|cycle| - 2], cycle[|cycle| - 1]);
    GrayClosesCycle(g, path, cycle[|cycle| - 1]);
  }

  /** findDependencyCycle names a cycle exactly when the graph has one: the same graphs
      TopologicalOrder refuses. */
  method FindDependencyCycle(g: Graph, names: seq<string>) returns (cycle: seq<string>)
    requires forall n :: n in names <==> n in g
    ensures cycle == [] <==> !Cyclic(g)
    ensures cycle != [] ==> DescribesCycle(g, cycle)
  {
    var search := new CycleFinder(g);
    var i := 0;
    while i < |names|
      invariant 0 <= i <= |names| && search.g == g
      invariant Searching(search.g, search.color, search.path, search.order) && search.path == []
      invariant forall j :: 0 <= j < i ==> names[j] in search.order
    {
      if names[i] !in search.color {
        cycle := search.Visit(names[i]);
        if cycle != [] {
          DescribedCycleExists(g, cycle);
          return;
        }
      }
      i := i + 1;
    }
    OrderMeansAcyclic(search.g, search.order);
    return [];
  }
}
