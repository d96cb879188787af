/** The publish order of workspace packages (tools/bootstrap-publish.py): a depth-first topological
    sort that ignores self-dependencies and packages outside the set. */
module TopoSort {
  import opened Bytes

  type Name = bytes

  /** Dependencies by package. */
  type Packages = map<Name, seq<Name>>

  datatype Mark = Visiting | Visited

  datatype Result = Sorted(order: seq<Name>) | CycleAt(name: Name)

  predicate Edge(packages: Packages, a: Name, b: Name)
  {
    a in packages && b in packages && a != b && b in packages[a]
  }

  ghost predicate IsPath(packages: Packages, p: seq<Name>)
  {
    forall i :: 0 <= i < |p| - 1 ==> Edge(packages, p[i], p[i + 1])
  }

  ghost predicate IsCycle(packages: Packages, p: seq<Name>)
  {
    p != [] && IsPath(packages, p) && Edge(packages, p[|p| - 1], p[0])
  }

  ghost predicate HasCycle(packages: Packages)
  {
    exists p :: IsCycle(packages, p)
  }

  ghost predicate OnCycle(packages: Packages, name: Name)
  {
    exists p :: IsCycle(packages, p) && p[0] == name
  }

  ghost predicate Distinct(s: seq<Name>)
  {
    forall i, j :: 0 <= i < j < |s| ==> s[i] != s[j]
  }

  /** Every dependency of a listed package is listed before it. */
  ghost predicate DepsFirst(packages: Packages, order: seq<Name>)
  {
    forall i, d :: 0 <= i < |order| && Edge(packages, order[i], d) ==> d in order[..i]
  }

  ghost predicate IsTopological(packages: Packages, order: seq<Name>)
  {
    && Distinct(order) && (forall n :: n in order <==> n in packages) && DepsFirst(packages, order)
  }

  // ---- An order rules out cycles ----

  lemma {:induction false} PathGoesBack(packages: Packages, order: seq<Name>, p: seq<Name>, i: nat) returns (k: nat)
    requires IsTopological(packages, order) && IsPath(packages, p) && i < |p| && p[0] in packages
    ensures k < |order| && order[k] == p[i]
    ensures forall j :: 0 <= j < |order| && order[j] == p[0] ==> k + i <= j
  {
    if i == 0 {
      k :| 0 <= k < |order| && order[k] == p[0];
    } else {
      var before := PathGoesBack(packages, order, p, i - 1);
      assert Edge(packages, p[i - 1], p[i]) && p[i] in order[..before];
      k :| 0 <= k < before && order[..before][k] == p[i];
    }
  }

  lemma OrderHasNoCycle(packages: Packages, order: seq<Name>)
    requires IsTopological(packages, order)
    ensures !HasCycle(packages)
  {
    forall p ensures !IsCycle(packages, p) {
      if IsCycle(packages, p) {
        var last := PathGoesBack(packages, order, p, |p| - 1);
      }
    }
  }

  // ---- The sort ----

  ghost predicate Sound(packages: Packages, visited: map<Name, Mark>, order: seq<Name>, stack: seq<Name>)
  {
    && visited.Keys <= packages.Keys && Distinct(order)
    && (forall n :: n in order <==> n in visited && visited[n] == Visited)
    && (forall n :: n in stack <==> n in visited && visited[n] == Visiting)
    && DepsFirst(packages, order) && IsPath(packages, stack)
  }

  lemma Enter(packages: Packages, visited: map<Name, Mark>, order: seq<Name>, stack: seq<Name>, name: Name)
    requires Sound(packages, visited, order, stack) && name in packages && name !in visited
    requires stack == [] || Edge(packages, stack[|stack| - 1], name)
    ensures Sound(packages, visited[name := Visiting], order, stack + [name])
  {
    assert forall n :: n in stack + [name] <==> n in stack || n == name;
  }

  lemma Leave(packages: Packages, visited: map<Name, Mark>, order: seq<Name>, stack: seq<Name>, name: Name)
    requires Sound(packages, visited, order, stack + [name]) && name in packages && name !in stack
    requires forall d :: Edge(packages, name, d) ==> d in order
    ensures Sound(packages, visited[name := Visited], order + [name], stack)
  {
    var path, order' := stack + [name], order + [name];
    assert name in path;
    assert forall n :: n in path <==> n in stack || n == name;
    assert forall n :: n in order' <==> n in order || n == name;
    forall i, d | 0 <= i < |order'| && Edge(packages, order'[i], d) ensures d in order'[..i] {
      assert order'[..i] == order[..i];
    }
    forall i | 0 <= i < |stack| - 1 ensures Edge(packages, stack[i], stack[i + 1]) {
      assert path[i] == stack[i] && path[i + 1] == stack[i + 1];
    }
  }

  lemma ClosesCycle(packages: Packages, stack: seq<Name>, name: Name)
    requires IsPath(packages, stack) && name in stack && Edge(packages, stack[|stack| - 1], name)
    ensures OnCycle(packages, name)
  {
    var j :| 0 <= j < |stack| && stack[j] == name;
    var p := stack[j..];
    assert IsCycle(packages, p) && p[0] == name;
  }

  class Sorter {
    const packages: Packages
    var visited: map<Name, Mark>
    var order: seq<Name>

    constructor (packages: Packages)
      ensures this.packages == packages && visited == map[] && order == []
    {
      this.packages := packages;
      visited, order := map[], [];
    }

    /** Visits `name` and what it depends on. A cycle unwinds the whole search. */
    method Dfs(name: Name, ghost stack: seq<Name>) returns (cycle: Option<Name>)
      requires Sound(packages, visited, order, stack) && name in packages
      requires stack == [] || Edge(packages, stack[|stack| - 1], name)
      modifies this
      ensures cycle.Some? ==> OnCycle(packages, cycle.value)
      ensures cycle.None? ==> Sound(packages, visited, order, stack) && name in order && old(order) <= order
      ensures old(visited).Keys <= visited.Keys
      decreases packages.Keys - visited.Keys
    {
      if name in visited {
        if visited[name] == Visiting {
          ClosesCycle(packages, stack, name);
          return Some(name);
        }
        return None;
      }
      Enter(packages, visited, order, stack, name);
      visited := visited[name := Visiting];
      ghost var path := stack + [name];
      var deps := packages[name];
      for i := 0 to |deps|
        invariant Sound(packages, visited, order, path) && old(order) <= order
        invariant old(visited).Keys + {name} <= visited.Keys
        invariant forall j :: 0 <= j < i && Edge(packages, name, deps[j]) ==> deps[j] in order
      {
        if deps[i] != name && deps[i] in packages {
          assert path[|path| - 1] == name && Edge(packages, name, deps[i]);
          cycle := Dfs(deps[i], path);
          if cycle.Some? {
            return;
          }
        }
      }
      Leave(packages, visited, order, stack, name);
      visited := visited[name := Visited];
      order := order + [name];
      return None;
    }
  }

  /** Returns an order exactly when the graph without self-loops has no cycle: every package once,
      each after the packages it depends on. Otherwise names a package on a cycle. */
  method TopologicalSort(packages: Packages, names: seq<Name>) returns (r: Result)
    requires Distinct(names) && forall n :: n in names <==> n in packages
    ensures r.Sorted? <==> !HasCycle(packages)
    ensures r.Sorted? ==> IsTopological(packages, r.order)
    ensures r.CycleAt? ==> OnCycle(packages, r.name)
  {
    var sorter := new Sorter(packages);
    for i := 0 to |names|
      invariant sorter.packages == packages && Sound(packages, sorter.visited, sorter.order, [])
      invariant forall j :: 0 <= j < i ==> names[j] in sorter.order
      invariant fresh(sorter)
    {
      var cycle := sorter.Dfs(names[i], []);
      if cycle.Some? {
        return CycleAt(cycle.value);
      }
    }
    OrderHasNoCycle(packages, sorter.order);
    return Sorted(sorter.order);
  }
}
