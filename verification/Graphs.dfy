/** Finite directed graphs given by successor lists, shared by the searches of this project.
    A successor that is not itself a key of the map is not a node, so no edge leads to it. */
module Graphs {

  type Graph<N(==)> = map<N, seq<N>>

  predicate Edge<N(==)>(g: Graph<N>, u: N, v: N) {
    u in g && v in g && v in g[u]
  }

  /** A non-empty sequence of nodes joined by edges. */
  ghost predicate Walk<N>(g: Graph<N>, w: seq<N>) {
    && |w| > 0
    && (forall i :: 0 <= i < |w| ==> w[i] in g)
    && (forall i {:trigger StepAt(g, w, i)} :: 0 <= i < |w| - 1 ==> StepAt(g, w, i))
  }

  ghost predicate StepAt<N>(g: Graph<N>, w: seq<N>, i: int)
    requires 0 <= i < |w| - 1
  {
    Edge(g, w[i], w[i + 1])
  }

  ghost predicate WalkFromTo<N>(g: Graph<N>, w: seq<N>, u: N, v: N) {
    Walk(g, w) && w[0] == u && w[|w| - 1] == v
  }

  ghost predicate Reach<N(!new)>(g: Graph<N>, u: N, v: N) {
    exists w :: WalkFromTo(g, w, u, v)
  }

  ghost predicate Cycle<N>(g: Graph<N>, w: seq<N>) {
    |w| >= 2 && Walk(g, w) && w[0] == w[|w| - 1]
  }

  ghost predicate OnCycle<N(!new)>(g: Graph<N>, u: N) {
    exists w :: Cycle(g, w) && w[0] == u
  }

  ghost predicate Acyclic<N(!new)>(g: Graph<N>) {
    forall w :: !Cycle(g, w)
  }

  ghost predicate Distinct<T>(s: seq<T>) {
    forall i, j :: 0 <= i < j < |s| ==> s[i] != s[j]
  }

  lemma {:induction false} WalkSlice<N>(g: Graph<N>, w: seq<N>, lo: nat, hi: nat)
    requires Walk(g, w) && lo < hi <= |w|
    ensures Walk(g, w[lo..hi])
  {
    var s := w[lo..hi];
    forall i | 0 <= i < |s| - 1 ensures StepAt(g, s, i) {
      assert StepAt(g, w, lo + i);
    }
  }

  lemma {:induction false} WalkAppend<N>(g: Graph<N>, w: seq<N>, v: N)
    requires Walk(g, w) && Edge(g, w[|w| - 1], v)
    ensures Walk(g, w + [v])
  {
    var s := w + [v];
    forall i | 0 <= i < |s| - 1 ensures StepAt(g, s, i) {
      assert i < |w| - 1 ==> StepAt(g, w, i);
    }
  }

  lemma {:induction false} WalkPrepend<N>(g: Graph<N>, u: N, w: seq<N>)
    requires Walk(g, w) && Edge(g, u, w[0])
    ensures Walk(g, [u] + w)
  {
    var s := [u] + w;
    forall i | 0 <= i < |s| - 1 ensures StepAt(g, s, i) {
      assert i > 0 ==> StepAt(g, w, i - 1);
    }
  }

  /** Two walks that meet join into one. */
  lemma {:induction false} WalkJoin<N>(g: Graph<N>, a: seq<N>, b: seq<N>)
    requires Walk(g, a) && Walk(g, b) && a[|a| - 1] == b[0]
    ensures Walk(g, a + b[1..])
  {
    var s := a + b[1..];
    forall i | 0 <= i < |s| - 1 ensures StepAt(g, s, i) {
      if i < |a| - 1 {
        assert StepAt(g, a, i);
      } else {
        assert StepAt(g, b, i - |a| + 1);
      }
    }
  }

  lemma {:induction false} ReachRefl<N(!new)>(g: Graph<N>, u: N)
    requires u in g
    ensures Reach(g, u, u)
  {
    assert WalkFromTo(g, [u], u, u);
  }

  lemma {:induction false} ReachStep<N(!new)>(g: Graph<N>, u: N, v: N, x: N)
    requires Reach(g, u, v) && Edge(g, v, x)
    ensures Reach(g, u, x)
  {
    var w :| WalkFromTo(g, w, u, v);
    WalkAppend(g, w, x);
    assert WalkFromTo(g, w + [x], u, x);
  }

  lemma {:induction false} ReachTrans<N(!new)>(g: Graph<N>, u: N, v: N, x: N)
    requires Reach(g, u, v) && Reach(g, v, x)
    ensures Reach(g, u, x)
  {
    var a :| WalkFromTo(g, a, u, v);
    var b :| WalkFromTo(g, b, v, x);
    WalkJoin(g, a, b);
    var s := a + b[1..];
    assert |b| == 1 ==> s[|s| - 1] == a[|a| - 1];
    assert WalkFromTo(g, s, u, x);
  }

  /** An edge back to where a walk started closes a cycle. */
  lemma {:induction false} BackEdge<N(!new)>(g: Graph<N>, u: N, v: N)
    requires Reach(g, v, u) && Edge(g, u, v)
    ensures OnCycle(g, v)
  {
    var w :| WalkFromTo(g, w, v, u);
    WalkAppend(g, w, v);
    assert Cycle(g, w + [v]);
  }

  lemma {:induction false} DistinctWithin<T>(s: seq<T>, all: set<T>)
    requires Distinct(s) && (forall x :: x in s ==> x in all)
    ensures |s| <= |all|
  {
    if s != [] {
      var last := s[|s| - 1];
      DistinctWithin(s[..|s| - 1], all - {last});
    }
  }

  /** A walk that repeats a node contains a cycle between the two visits. */
  lemma {:induction false} RepeatIsCycle<N>(g: Graph<N>, w: seq<N>, i: nat, j: nat)
    requires Walk(g, w) && i < j < |w| && w[i] == w[j]
    ensures Cycle(g, w[i..j + 1])
  {
    WalkSlice(g, w, i, j + 1);
  }

  // ----- ranks of acyclic graphs

  ghost predicate Ranks<N(!new)>(g: Graph<N>, rank: map<N, nat>) {
    rank.Keys == g.Keys && forall u, v :: Edge(g, u, v) ==> rank[v] < rank[u]
  }

  ghost predicate HasSuccessor<N(!new)>(g: Graph<N>, u: N) {
    exists v :: Edge(g, u, v)
  }

  /** With no sink, walks of every length exist. */
  lemma {:induction false} LongWalk<N(!new)>(g: Graph<N>, u: N, k: nat) returns (w: seq<N>)
    requires u in g
    requires forall x {:trigger HasSuccessor(g, x)} :: x in g ==> HasSuccessor(g, x)
    ensures Walk(g, w) && |w| == k + 1
  {
    if k == 0 {
      w := [u];
    } else {
      w := LongWalk(g, u, k - 1);
      assert HasSuccessor(g, w[|w| - 1]);
      var y :| Edge(g, w[|w| - 1], y);
      WalkAppend(g, w, y);
      w := w + [y];
    }
  }

  lemma {:induction false} AcyclicHasSink<N(!new)>(g: Graph<N>) returns (s: N)
    requires Acyclic(g) && g != map[]
    ensures s in g && !HasSuccessor(g, s)
  {
    if forall x {:trigger HasSuccessor(g, x)} :: x in g ==> HasSuccessor(g, x) {
      var u :| u in g;
      var w := LongWalk(g, u, |g|);
      if Distinct(w) {
        DistinctWithin(w, g.Keys);
      } else {
        var i, j :| 0 <= i < j < |w| && w[i] == w[j];
        RepeatIsCycle(g, w, i, j);
      }
      assert false;
    }
    s :| s in g && !HasSuccessor(g, s);
  }

  lemma {:induction false} SubgraphAcyclic<N(!new)>(g: Graph<N>, s: N)
    requires Acyclic(g)
    ensures Acyclic(g - {s})
  {
    var h := g - {s};
    forall w ensures !Cycle(h, w) {
      if Cycle(h, w) {
        forall i | 0 <= i < |w| - 1 ensures StepAt(g, w, i) {
          assert StepAt(h, w, i);
        }
        assert Cycle(g, w);
      }
    }
  }

  /** Every finite acyclic graph can be ranked so that edges lead downwards. */
  lemma {:induction false} AcyclicHasRanks<N(!new)>(g: Graph<N>) returns (rank: map<N, nat>)
    requires Acyclic(g)
    ensures Ranks(g, rank)
    decreases |g|
  {
    if g == map[] {
      rank := map[];
    } else {
      var s := AcyclicHasSink(g);
      SubgraphAcyclic(g, s);
      var h := g - {s};
      assert h.Keys == g.Keys - {s};
      assert |h| < |g|;
      var r := AcyclicHasRanks(h);
      rank := map x | x in g :: if x == s then 0 else r[x] + 1;
      forall u, v | Edge(g, u, v) ensures rank[v] < rank[u] {
        assert u != s;
        if v != s {
          assert Edge(h, u, v);
        }
      }
    }
  }
}
