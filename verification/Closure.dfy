/** `closure` of compiler/intake/closure.py: dependencies of a library file, dependency first. The
    map holds the existing files; a dependency outside it is not a file and is skipped. */
module Closure {
  import opened Graphs

  datatype Dependency<P, R> = Dependency(file: P, reason: R)

  function FilesOf<P, R>(ds: seq<Dependency<P, R>>): (files: seq<P>)
    ensures |files| == |ds| && forall i :: 0 <= i < |ds| ==> files[i] == ds[i].file
  {
    if ds == [] then [] else [ds[0].file] + FilesOf(ds[1..])
  }

  function FileGraph<P(==), R>(deps: map<P, seq<Dependency<P, R>>>): Graph<P> {
    map p | p in deps :: FilesOf(deps[p])
  }

  /** The reason stands on some dependency on the file. */
  ghost predicate Stated<P(!new), R>(deps: map<P, seq<Dependency<P, R>>>, d: Dependency<P, R>) {
    exists p :: p in deps && d in deps[p]
  }

  class ClosureSearch<P(==, !new), R> {
    const deps: map<P, seq<Dependency<P, R>>>
    const root: P
    ghost const graph: Graph<P>
    var order: seq<Dependency<P, R>>
    var visiting: set<P>
    var done: set<P>
    ghost var stack: seq<P>           // the open files, outermost first
    ghost var finish: map<P, nat>     // position of each finished file

    constructor (d: map<P, seq<Dependency<P, R>>>, r: P)
      ensures Valid() && deps == d && root == r && order == [] && visiting == {} && done == {}
    {
      deps, root, order, visiting, done := d, r, [], {}, {};
      graph, stack, finish := FileGraph(d), [], map[];
    }

    ghost predicate Valid()
      reads this
    {
      && graph == FileGraph(deps)
      && finish.Keys == done && done !! visiting
      && Open(graph, root, stack, visiting)
      && AllReached(graph, root, done)
      && Listed(root, order, finish)
      && Ordered(graph, finish, visiting)
      && AllStated(deps, order)
    }

    method Visit(current: P, reason: R)
      requires Valid() && current in deps
      requires if stack == [] then current == root && root !in done
               else Edge(graph, stack[|stack| - 1], current) && Stated(deps, Dependency(current, reason))
      modifies this
      ensures Valid() && visiting == old(visiting) && stack == old(stack)
      ensures old(done) <= done && (current in done || current in visiting) && old(order) <= order
      decreases deps.Keys - visiting, 0
    {
      if current in done || current in visiting {
        return;
      }
      Enter(current);
      VisitDependencies(current);
      Leave(current, reason);
    }

    method Enter(current: P)
      requires Valid() && current in deps && current !in done && current !in visiting
      requires if stack == [] then current == root else Edge(graph, stack[|stack| - 1], current)
      modifies this`visiting, this`stack
      ensures Valid() && visiting == old(visiting) + {current} && stack == old(stack) + [current]
    {
      if stack != [] {
        WalkAppend(graph, stack, current);
      }
      visiting := visiting + {current};
      stack := stack + [current];
    }

    method VisitDependencies(current: P)
      requires Valid() && stack != [] && stack[|stack| - 1] == current && current in deps
      modifies this
      ensures Valid() && visiting == old(visiting) && stack == old(stack) && old(done) <= done && old(order) <= order
      ensures forall v :: Edge(graph, current, v) ==> v in done || v in visiting
      decreases deps.Keys - visiting, 2
    {
      var i := 0;
      while i < |deps[current]|
        invariant i <= |deps[current]|
        invariant Valid() && visiting == old(visiting) && stack == old(stack) && old(done) <= done && old(order) <= order
        invariant forall j :: 0 <= j < i && deps[current][j].file in deps
                    ==> deps[current][j].file in done + visiting
      {
        VisitDependency(current, i);
        i := i + 1;
      }
      EdgesFrom(deps, current);
    }

    /** The i-th dependency, if it is a file. */
    method VisitDependency(current: P, i: nat)
      requires Valid() && stack != [] && stack[|stack| - 1] == current && current in deps && i < |deps[current]|
      modifies this
      ensures Valid() && visiting == old(visiting) && stack == old(stack) && old(done) <= done && old(order) <= order
      ensures deps[current][i].file in deps ==> deps[current][i].file in done + visiting
      decreases deps.Keys - visiting, 1
    {
      var d := deps[current][i];
      if d.file in deps {
        EdgeAt(deps, current, i);
        assert d == Dependency(d.file, d.reason) && d in deps[current];
        Visit(d.file, d.reason);
      }
    }

    method Leave(current: P, reason: R)
      requires Valid() && stack != [] && stack[|stack| - 1] == current && current !in stack[..|stack| - 1]
      requires forall v :: Edge(graph, current, v) ==> v in done || v in visiting
      requires current == root <==> |stack| == 1
      requires current != root ==> Stated(deps, Dependency(current, reason))
      modifies this
      ensures Valid() && visiting == old(visiting) - {current} && stack == old(stack)[..|old(stack)| - 1]
      ensures done == old(done) + {current}
      ensures order == Appended(root, old(order), current, reason)
    {
      LeaveReaches(graph, stack, visiting, current);
      ReachedGrows(graph, root, done, current);
      ListedGrows(root, order, finish, current, reason);
      OrderedGrows(graph, finish, visiting, current, |order|);
      OpenShrinks(graph, root, stack, visiting, current);
      visiting := visiting - {current};
      done := done + {current};
      stack := stack[..|stack| - 1];
      finish := finish[current := |order|];
      order := Appended(root, order, current, reason);
    }
  }

  /** The open files are the stack, a walk from the root. */
  ghost predicate Open<P(!new)>(g: Graph<P>, root: P, stack: seq<P>, visiting: set<P>) {
    && (forall p :: p in stack <==> p in visiting)
    && (stack == [] || (Walk(g, stack) && stack[0] == root))
  }

  ghost predicate AllReached<P(!new)>(g: Graph<P>, root: P, done: set<P>) {
    forall p :: p in done ==> Reach(g, root, p)
  }

  ghost predicate AllStated<P(!new), R>(deps: map<P, seq<Dependency<P, R>>>, order: seq<Dependency<P, R>>) {
    forall k :: 0 <= k < |order| ==> Stated(deps, order[k])
  }

  /** The root itself is not listed. */
  function Appended<P(==), R>(root: P, order: seq<Dependency<P, R>>, p: P, reason: R): seq<Dependency<P, R>> {
    if p == root then order else order + [Dependency(p, reason)]
  }

  lemma {:induction false} ReachedGrows<P(!new)>(g: Graph<P>, root: P, done: set<P>, p: P)
    requires AllReached(g, root, done) && Reach(g, root, p)
    ensures AllReached(g, root, done + {p})
  {
  }

  lemma {:induction false} OpenShrinks<P(!new)>(g: Graph<P>, root: P, stack: seq<P>, visiting: set<P>, p: P)
    requires Open(g, root, stack, visiting)
    requires stack != [] && stack[|stack| - 1] == p && p !in stack[..|stack| - 1]
    ensures Open(g, root, stack[..|stack| - 1], visiting - {p})
  {
    var rest := stack[..|stack| - 1];
    assert stack == rest + [p];
    if |stack| > 1 {
      WalkSlice(g, stack, 0, |stack| - 1);
      assert stack[0..|stack| - 1] == rest;
    }
  }

  /** The list holds the finished files other than the root, each at its finishing position. */
  ghost predicate Listed<P, R>(root: P, order: seq<Dependency<P, R>>, finish: map<P, nat>) {
    && (forall k :: 0 <= k < |order| ==> order[k].file != root && order[k].file in finish && finish[order[k].file] == k)
    && (forall p :: p in finish && p != root ==> finish[p] < |order| && order[finish[p]].file == p)
    && (root in finish ==> finish[root] == |order|)
  }

  /** A dependency of a finished file is finished before it, or open, or depends back on it. */
  ghost predicate Ordered<P(!new)>(g: Graph<P>, finish: map<P, nat>, visiting: set<P>) {
    forall u, v :: Edge(g, u, v) && u in finish
      ==> (v in finish || v in visiting) && ((v in finish && finish[v] < finish[u]) || Reach(g, v, u))
  }

  lemma {:induction false} ListedGrows<P, R>(root: P, order: seq<Dependency<P, R>>, finish: map<P, nat>, p: P, reason: R)
    requires Listed(root, order, finish) && p !in finish && root !in finish
    ensures Listed(root, Appended(root, order, p, reason), finish[p := |order|])
    ensures forall q :: q in finish ==> finish[q] < |order|
  {
  }

  lemma {:induction false} OrderedGrows<P(!new)>(g: Graph<P>, finish: map<P, nat>, visiting: set<P>, p: P, n: nat)
    requires Ordered(g, finish, visiting) && p in visiting && p !in finish
    requires forall q :: q in finish ==> finish[q] < n
    requires forall v :: Edge(g, p, v) ==> v in finish || v in visiting
    requires forall v :: v in visiting ==> Reach(g, v, p)
    ensures Ordered(g, finish[p := n], visiting - {p})
  {
  }

  lemma {:induction false} EdgeAt<P(!new), R>(deps: map<P, seq<Dependency<P, R>>>, u: P, i: nat)
    requires u in deps && i < |deps[u]| && deps[u][i].file in deps
    ensures Edge(FileGraph(deps), u, deps[u][i].file)
  {
    assert FilesOf(deps[u])[i] == deps[u][i].file;
  }

  lemma {:induction false} EdgesFrom<P(!new), R>(deps: map<P, seq<Dependency<P, R>>>, u: P)
    requires u in deps
    ensures forall v :: Edge(FileGraph(deps), u, v) ==> exists i :: 0 <= i < |deps[u]| && deps[u][i].file == v
  {
  }

  /** Every open file reaches the innermost one. */
  lemma {:induction false} LeaveReaches<P(!new)>(g: Graph<P>, stack: seq<P>, visiting: set<P>, current: P)
    requires Walk(g, stack) && stack[|stack| - 1] == current && forall p :: p in stack <==> p in visiting
    ensures forall v :: v in visiting ==> Reach(g, v, current)
    ensures Reach(g, stack[0], current)
  {
    assert stack[0] in stack;
    forall v | v in visiting ensures Reach(g, v, current) {
      var i :| 0 <= i < |stack| && stack[i] == v;
      WalkSlice(g, stack, i, |stack|);
      assert WalkFromTo(g, stack[i..|stack|], v, current);
    }
  }

  /** A dependency of the k-th file stands before it unless it depends back on that file. */
  ghost predicate DependencyFirst<P(!new), R>(g: Graph<P>, order: seq<Dependency<P, R>>) {
    forall k, v :: 0 <= k < |order| && Edge(g, order[k].file, v)
      ==> (exists j :: 0 <= j < k && order[j].file == v) || Reach(g, v, order[k].file)
  }

  /** `closure`: every reachable file except the root exactly once, dependencies first. */
  method DependencyClosure<P(==, !new), R>(deps: map<P, seq<Dependency<P, R>>>, root: P, empty: R)
    returns (order: seq<Dependency<P, R>>)
    requires root in deps
    ensures Distinct(FilesOf(order))
    ensures forall p :: p in FilesOf(order) <==> p != root && Reach(FileGraph(deps), root, p)
    ensures DependencyFirst(FileGraph(deps), order)
    ensures AllStated(deps, order)
  {
    var search := new ClosureSearch(deps, root);
    search.Visit(root, empty);
    order := search.order;
    ListedExactly(search.graph, root, order, search.finish);
    OrderedFirst(search.graph, root, order, search.finish);
  }

  lemma {:induction false} ListedExactly<P(!new), R>(g: Graph<P>, root: P, order: seq<Dependency<P, R>>, finish: map<P, nat>)
    requires Listed(root, order, finish) && Ordered(g, finish, {}) && root in finish
    requires forall p :: p in finish ==> Reach(g, root, p)
    ensures Distinct(FilesOf(order))
    ensures forall p :: p in FilesOf(order) <==> p != root && Reach(g, root, p)
  {
    forall p ensures p in FilesOf(order) <==> p != root && Reach(g, root, p) {
      if p in FilesOf(order) {
        var k :| 0 <= k < |order| && FilesOf(order)[k] == p;
        assert order[k].file == p;
      }
      if p != root && Reach(g, root, p) {
        var w :| WalkFromTo(g, w, root, p);
        ClosedReach(g, finish, w, |w| - 1);
        assert FilesOf(order)[finish[p]] == p;
      }
    }
    forall i, j | 0 <= i < j < |order| ensures FilesOf(order)[i] != FilesOf(order)[j] {
      assert finish[order[i].file] == i && finish[order[j].file] == j;
    }
  }

  lemma {:induction false} ClosedReach<P(!new)>(g: Graph<P>, finish: map<P, nat>, w: seq<P>, n: nat)
    requires Ordered(g, finish, {}) && Walk(g, w) && w[0] in finish && n < |w|
    ensures w[n] in finish
  {
    if n > 0 {
      ClosedReach(g, finish, w, n - 1);
      assert StepAt(g, w, n - 1);
    }
  }

  lemma {:induction false} OrderedFirst<P(!new), R>(g: Graph<P>, root: P, order: seq<Dependency<P, R>>, finish: map<P, nat>)
    requires Listed(root, order, finish) && Ordered(g, finish, {}) && root in finish
    ensures DependencyFirst(g, order)
  {
    forall k, v | 0 <= k < |order| && Edge(g, order[k].file, v)
      ensures (exists j :: 0 <= j < k && order[j].file == v) || Reach(g, v, order[k].file)
    {
      if !Reach(g, v, order[k].file) {
        assert finish[v] < finish[order[k].file] == k;
        assert v != root;
        assert order[finish[v]].file == v;
      }
    }
  }

  /** Without cycles every file comes after all of its own dependencies. */
  lemma {:induction false} AcyclicDependencyFirst<P(!new), R>(g: Graph<P>, order: seq<Dependency<P, R>>, k: nat, v: P)
    requires Acyclic(g) && DependencyFirst(g, order) && k < |order| && Edge(g, order[k].file, v)
    ensures exists j :: 0 <= j < k && order[j].file == v
  {
    if Reach(g, v, order[k].file) {
      BackEdge(g, order[k].file, v);
    }
  }
}
