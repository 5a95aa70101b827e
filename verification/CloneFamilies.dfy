/** Union-find with least representatives and the near-family merging loop of
    compiler/intake/clones.py. Keys are numbered in their sorted order. */
module CloneFamilies {

  type Pairs = set<(nat, nat)>

  // ----- connectivity of an undirected graph

  predicate Joined(es: Pairs, a: nat, b: nat) {
    (a, b) in es || (b, a) in es
  }

  ghost predicate Path(es: Pairs, w: seq<nat>) {
    |w| > 0 && forall i {:trigger JoinedAt(es, w, i)} :: 0 <= i < |w| - 1 ==> JoinedAt(es, w, i)
  }

  ghost predicate JoinedAt(es: Pairs, w: seq<nat>, i: int)
    requires 0 <= i < |w| - 1
  {
    Joined(es, w[i], w[i + 1])
  }

  ghost predicate PathFromTo(es: Pairs, w: seq<nat>, x: nat, y: nat) {
    Path(es, w) && w[0] == x && w[|w| - 1] == y
  }

  ghost predicate Connected(es: Pairs, x: nat, y: nat) {
    exists w :: PathFromTo(es, w, x, y)
  }

  lemma {:induction false} ConnectedRefl(es: Pairs, x: nat)
    ensures Connected(es, x, x)
  {
    assert PathFromTo(es, [x], x, x);
  }

  lemma {:induction false} ConnectedTrans(es: Pairs, x: nat, y: nat, z: nat)
    requires Connected(es, x, y) && Connected(es, y, z)
    ensures Connected(es, x, z)
  {
    var a :| PathFromTo(es, a, x, y);
    var b :| PathFromTo(es, b, y, z);
    var w := a + b[1..];
    forall i | 0 <= i < |w| - 1 ensures JoinedAt(es, w, i) {
      if i < |a| - 1 {
        assert JoinedAt(es, a, i);
      } else {
        assert JoinedAt(es, b, i - |a| + 1);
      }
    }
    assert |b| == 1 ==> w[|w| - 1] == a[|a| - 1];
    assert PathFromTo(es, w, x, z);
  }

  lemma {:induction false} ConnectedSym(es: Pairs, x: nat, y: nat)
    requires Connected(es, x, y)
    ensures Connected(es, y, x)
  {
    var a :| PathFromTo(es, a, x, y);
    var w := seq(|a|, i requires 0 <= i < |a| => a[|a| - 1 - i]);
    forall i | 0 <= i < |w| - 1 ensures JoinedAt(es, w, i) {
      assert JoinedAt(es, a, |a| - 2 - i);
    }
    assert PathFromTo(es, w, y, x);
  }

  lemma {:induction false} ConnectedGrows(es: Pairs, fs: Pairs, x: nat, y: nat)
    requires es <= fs && Connected(es, x, y)
    ensures Connected(fs, x, y)
  {
    var w :| PathFromTo(es, w, x, y);
    forall i | 0 <= i < |w| - 1 ensures JoinedAt(fs, w, i) {
      assert JoinedAt(es, w, i);
    }
    assert PathFromTo(fs, w, x, y);
  }

  // ----- the parent map

  /** Parents are keys and never larger than their children. */
  ghost predicate Falls(parent: map<nat, nat>) {
    forall x {:trigger Down(parent, x)} :: x in parent ==> Down(parent, x)
  }

  ghost predicate Down(parent: map<nat, nat>, x: nat) {
    x in parent && parent[x] in parent && parent[x] <= x
  }

  /** Where the chain of parents ends. */
  ghost function Root(parent: map<nat, nat>, x: nat): nat
    decreases x
  {
    if x in parent && parent[x] < x then Root(parent, parent[x]) else x
  }

  lemma {:induction false} RootIsFixed(parent: map<nat, nat>, x: nat)
    requires Falls(parent) && x in parent
    ensures Root(parent, x) in parent && parent[Root(parent, x)] == Root(parent, x) && Root(parent, x) <= x
    decreases x
  {
    assert Down(parent, x);
    if parent[x] < x {
      RootIsFixed(parent, parent[x]);
    }
  }

  /** Path halving moves a key to its grandparent and changes no root. */
  lemma {:induction false} HalvingKeepsRoots(parent: map<nat, nat>, x: nat, y: nat)
    requires Falls(parent) && x in parent && parent[x] in parent && y in parent
    ensures Falls(parent[x := parent[parent[x]]])
    ensures Root(parent[x := parent[parent[x]]], y) == Root(parent, y)
    decreases y
  {
    var halved := parent[x := parent[parent[x]]];
    assert Down(parent, x) && Down(parent, parent[x]) && Down(parent, y);
    forall z | z in halved ensures Down(halved, z) {
      assert Down(parent, z);
    }
    if halved[y] != y {
      HalvingKeepsRoots(parent, x, halved[y]);
    }
  }

  lemma {:induction false} HalvingKeepsAll(first: map<nat, nat>, parent: map<nat, nat>, r: nat)
    requires SameRoots(first, parent) && r in parent && parent[r] in parent
    ensures var halved := parent[r := parent[parent[r]]];
            SameRoots(first, halved) && Root(halved, halved[r]) == Root(parent, r)
  {
    var halved := parent[r := parent[parent[r]]];
    assert Down(parent, r) && Down(parent, parent[r]);
    assert Root(parent, r) == Root(parent, parent[r]) == Root(parent, halved[r]);
    HalvingKeepsRoots(parent, r, halved[r]);
    forall y | y in parent ensures AgreeAt(first, halved, y) {
      assert AgreeAt(first, parent, y);
      HalvingKeepsRoots(parent, r, y);
    }
  }

  lemma {:induction false} SameRootsRepresent(p: map<nat, nat>, q: map<nat, nat>, es: Pairs)
    requires Represents(p, es) && SameRoots(p, q)
    ensures Represents(q, es)
  {
    forall a, b | (a, b) in es ensures SameRoot(q, a, b) {
      assert SameRoot(p, a, b) && AgreeAt(p, q, a) && AgreeAt(p, q, b);
    }
    forall x | x in q ensures ReachesRoot(q, es, x) {
      assert ReachesRoot(p, es, x) && AgreeAt(p, q, x);
    }
  }

  /** Linking one root below another redirects exactly the keys of the first. */
  lemma {:induction false} LinkMovesRoots(parent: map<nat, nat>, lo: nat, hi: nat, y: nat)
    requires Falls(parent) && lo in parent && hi in parent && lo < hi && y in parent
    requires parent[lo] == lo && parent[hi] == hi
    ensures Falls(parent[hi := lo])
    ensures Root(parent[hi := lo], y) == if Root(parent, y) == hi then lo else Root(parent, y)
    decreases y
  {
    assert Down(parent, y);
    forall z | z in parent ensures Down(parent[hi := lo], z) {
      assert Down(parent, z);
    }
    if parent[y] != y {
      LinkMovesRoots(parent, lo, hi, parent[y]);
    }
  }

  /** Roots describe the components of the united pairs. */
  ghost predicate Represents(parent: map<nat, nat>, es: Pairs) {
    && Falls(parent)
    && (forall a, b :: (a, b) in es ==> SameRoot(parent, a, b))
    && (forall x {:trigger ReachesRoot(parent, es, x)} :: x in parent ==> ReachesRoot(parent, es, x))
  }

  ghost predicate SameRoot(parent: map<nat, nat>, a: nat, b: nat) {
    a in parent && b in parent && Root(parent, a) == Root(parent, b)
  }

  ghost predicate ReachesRoot(parent: map<nat, nat>, es: Pairs, x: nat) {
    Connected(es, x, Root(parent, x))
  }

  ghost predicate SameRoots(p: map<nat, nat>, q: map<nat, nat>) {
    && Falls(p) && Falls(q) && p.Keys == q.Keys
    && forall y {:trigger AgreeAt(p, q, y)} :: y in p ==> AgreeAt(p, q, y)
  }

  ghost predicate AgreeAt(p: map<nat, nat>, q: map<nat, nat>, y: nat) {
    Root(p, y) == Root(q, y)
  }

  lemma {:induction false} PathKeepsRoot(parent: map<nat, nat>, es: Pairs, w: seq<nat>, n: nat)
    requires Falls(parent) && Path(es, w) && n < |w| && w[0] in parent
    requires forall a, b :: (a, b) in es ==> SameRoot(parent, a, b)
    ensures w[n] in parent && Root(parent, w[n]) == Root(parent, w[0])
  {
    if n > 0 {
      PathKeepsRoot(parent, es, w, n - 1);
      assert JoinedAt(es, w, n - 1);
    }
  }

  /** Two keys have one root exactly when they are connected, and the root is the least key of the
      component. */
  lemma {:induction false} RootIsLeast(parent: map<nat, nat>, es: Pairs, x: nat, y: nat)
    requires Represents(parent, es) && x in parent && y in parent
    ensures Connected(es, x, y) <==> Root(parent, x) == Root(parent, y)
    ensures Connected(es, x, y) ==> Root(parent, x) <= y
    ensures Connected(es, x, Root(parent, x))
  {
    assert ReachesRoot(parent, es, x) && ReachesRoot(parent, es, y);
    RootIsFixed(parent, y);
    if Connected(es, x, y) {
      var w :| PathFromTo(es, w, x, y);
      PathKeepsRoot(parent, es, w, |w| - 1);
    } else if Root(parent, x) == Root(parent, y) {
      ConnectedSym(es, y, Root(parent, y));
      ConnectedTrans(es, x, Root(parent, x), y);
    }
  }

  class UnionFind {
    var parent: map<nat, nat>
    ghost var united: Pairs

    ghost predicate Valid()
      reads this
    {
      Represents(parent, united)
    }

    constructor (items: set<nat>)
      ensures Valid() && parent.Keys == items && united == {}
    {
      parent := map x | x in items :: x;
      united := {};
      new;
      forall x | x in parent ensures ReachesRoot(parent, united, x) {
        ConnectedRefl(united, x);
      }
    }

    method Find(x: nat) returns (r: nat)
      requires Valid() && x in parent
      modifies this`parent
      ensures Valid() && SameRoots(old(parent), parent)
      ensures r == Root(parent, x)
    {
      r := x;
      while parent[r] != r
        invariant SameRoots(old(parent), parent) && r in parent
        invariant Root(parent, r) == Root(old(parent), x)
        decreases r
      {
        assert Down(parent, r) && Down(parent, parent[r]);
        HalvingKeepsAll(old(parent), parent, r);
        parent := parent[r := parent[parent[r]]];
        r := parent[r];
      }
      assert AgreeAt(old(parent), parent, x);
      SameRootsRepresent(old(parent), parent, united);
    }

    method Union(a: nat, b: nat)
      requires Valid() && a in parent && b in parent
      modifies this
      ensures Valid() && parent.Keys == old(parent.Keys)
      ensures united == old(united) + {(a, b)}
    {
      var ra := Find(a);
      ghost var between := parent;
      var rb := Find(b);
      assert AgreeAt(between, parent, a);
      assert ra == Root(parent, a) && rb == Root(parent, b);
      RootIsFixed(parent, a);
      RootIsFixed(parent, b);
      UnionRepresents(parent, united, a, b);
      united := united + {(a, b)};
      if ra != rb {
        if rb < ra {
          ra, rb := rb, ra;
        }
        parent := parent[rb := ra];
      }
    }
  }

  ghost function Linked(parent: map<nat, nat>, ra: nat, rb: nat): map<nat, nat> {
    if ra == rb then parent else if rb < ra then parent[ra := rb] else parent[rb := ra]
  }

  lemma {:induction false} UnionRepresents(parent: map<nat, nat>, es: Pairs, a: nat, b: nat)
    requires Represents(parent, es) && a in parent && b in parent
    ensures Represents(Linked(parent, Root(parent, a), Root(parent, b)), es + {(a, b)})
  {
    var ra, rb := Root(parent, a), Root(parent, b);
    if ra == rb {
      assert SameRoot(parent, a, b);
      forall x | x in parent ensures ReachesRoot(parent, es + {(a, b)}, x) {
        assert ReachesRoot(parent, es, x);
        ConnectedGrows(es, es + {(a, b)}, x, Root(parent, x));
      }
    } else {
      RootsMeet(parent, es, a, b);
      RootIsFixed(parent, a);
      RootIsFixed(parent, b);
      LinkRepresents(parent, es, a, b, if rb < ra then rb else ra, if rb < ra then ra else rb);
    }
  }

  lemma {:induction false} LinkRepresents(parent: map<nat, nat>, es: Pairs, a: nat, b: nat, lo: nat, hi: nat)
    requires Represents(parent, es) && a in parent && b in parent
    requires lo in parent && hi in parent && lo < hi && parent[lo] == lo && parent[hi] == hi
    requires {Root(parent, a), Root(parent, b)} == {lo, hi} && Connected(es + {(a, b)}, hi, lo)
    ensures Represents(parent[hi := lo], es + {(a, b)})
  {
    var linked, more := parent[hi := lo], es + {(a, b)};
    LinkMovesRoots(parent, lo, hi, a);
    LinkMovesRoots(parent, lo, hi, b);
    forall u, v | (u, v) in more ensures SameRoot(linked, u, v) {
      if (u, v) in es {
        assert SameRoot(parent, u, v);
        LinkMovesRoots(parent, lo, hi, u);
        LinkMovesRoots(parent, lo, hi, v);
      }
    }
    forall x | x in linked ensures ReachesRoot(linked, more, x) {
      assert ReachesRoot(parent, es, x);
      LinkMovesRoots(parent, lo, hi, x);
      ConnectedGrows(es, more, x, Root(parent, x));
      if Root(parent, x) == hi {
        ConnectedTrans(more, x, hi, lo);
      }
    }
  }

  /** The new pair connects the two old roots. */
  lemma {:induction false} RootsMeet(parent: map<nat, nat>, es: Pairs, a: nat, b: nat)
    requires Represents(parent, es) && a in parent && b in parent
    ensures Connected(es + {(a, b)}, Root(parent, a), Root(parent, b))
    ensures Connected(es + {(a, b)}, Root(parent, b), Root(parent, a))
  {
    var es' := es + {(a, b)};
    var w := [a, b];
    assert ReachesRoot(parent, es, a) && ReachesRoot(parent, es, b);
    assert JoinedAt(es', w, 0) && PathFromTo(es', w, a, b);
    ConnectedGrows(es, es', a, Root(parent, a));
    ConnectedGrows(es, es', b, Root(parent, b));
    ConnectedSym(es', a, Root(parent, a));
    ConnectedTrans(es', Root(parent, a), a, b);
    ConnectedTrans(es', Root(parent, a), b, Root(parent, b));
    ConnectedSym(es', Root(parent, a), Root(parent, b));
  }

  // ----- near families

  const ALL_PAIRS_LIMIT := 40

  /** Pairs that a bucket compares: all of them in small buckets, the first member against the rest
      in large ones. */
  ghost predicate Compared(members: seq<nat>, a: nat, b: nat) {
    exists i, j :: 0 <= i < j < |members| && members[i] == a && members[j] == b
                && (|members| <= ALL_PAIRS_LIMIT || i == 0)
  }

  /** The similarity graph: compared pairs that are similar. */
  ghost predicate Similar(buckets: seq<seq<nat>>, similar: (nat, nat) -> bool, a: nat, b: nat) {
    similar(a, b) && exists k :: 0 <= k < |buckets| && Compared(buckets[k], a, b)
  }

  ghost function SimilarityGraph(keys: set<nat>, buckets: seq<seq<nat>>, similar: (nat, nat) -> bool): Pairs {
    set a, b | a in keys && b in keys && Similar(buckets, similar, a, b) :: (a, b)
  }

  /** Every key is sent to the least key of its component. */
  ghost predicate LeastOfComponent(keys: set<nat>, es: Pairs, of: map<nat, nat>) {
    && of.Keys == keys
    && forall x :: x in keys ==> IsLeast(keys, es, x, of[x])
  }

  /** The loop so far: unions only along similar pairs, and every handled similar pair united. */
  ghost predicate Merged(near: UnionFind, keys: set<nat>, es: Pairs, handled: Pairs)
    reads near
  {
    && near.Valid() && near.parent.Keys == keys && near.united <= es
    && forall a, b :: (a, b) in handled ==> SameRoot(near.parent, a, b)
  }

  method MergePair(near: UnionFind, similar: (nat, nat) -> bool, a: nat, b: nat,
                   ghost keys: set<nat>, ghost es: Pairs, ghost handled: Pairs)
    requires Merged(near, keys, es, handled) && a in keys && b in keys
    requires similar(a, b) ==> (a, b) in es
    modifies near
    ensures Merged(near, keys, es, if similar(a, b) then handled + {(a, b)} else handled)
  {
    ghost var first := near.parent;
    var ra := near.Find(a);
    KeepsHandled(first, near.parent, handled);
    ghost var second := near.parent;
    var rb := near.Find(b);
    KeepsHandled(second, near.parent, handled);
    assert AgreeAt(second, near.parent, a);
    if ra != rb && similar(a, b) {
      ghost var before, united := near.parent, near.united;
      near.Union(a, b);
      forall u, v | (u, v) in handled + {(a, b)} ensures SameRoot(near.parent, u, v) {
        if (u, v) in handled {
          assert SameRoot(before, u, v);
          RootIsLeast(before, united, u, v);
          ConnectedGrows(united, near.united, u, v);
          RootIsLeast(near.parent, near.united, u, v);
        }
      }
    }
  }

  lemma {:induction false} KeepsHandled(p: map<nat, nat>, q: map<nat, nat>, handled: Pairs)
    requires SameRoots(p, q) && forall a, b :: (a, b) in handled ==> SameRoot(p, a, b)
    ensures forall a, b :: (a, b) in handled ==> SameRoot(q, a, b)
  {
    forall a, b | (a, b) in handled ensures SameRoot(q, a, b) {
      assert SameRoot(p, a, b) && AgreeAt(p, q, a) && AgreeAt(p, q, b);
    }
  }

  /** All compared pairs (members[i], members[j]) with i below `n` are handled if similar. */
  ghost predicate RowsDone(members: seq<nat>, similar: (nat, nat) -> bool, handled: Pairs, n: int) {
    forall i, j :: 0 <= i < n && i < j < |members| && similar(members[i], members[j])
      ==> (members[i], members[j]) in handled
  }

  method MergeRow(near: UnionFind, similar: (nat, nat) -> bool, members: seq<nat>, i: nat,
                  ghost keys: set<nat>, ghost es: Pairs, ghost handled: Pairs) returns (ghost handled': Pairs)
    requires Merged(near, keys, es, handled) && i < |members| && forall x :: x in members ==> x in keys
    requires forall j :: i < j < |members| && similar(members[i], members[j]) ==> (members[i], members[j]) in es
    requires RowsDone(members, similar, handled, i)
    modifies near
    ensures Merged(near, keys, es, handled') && handled <= handled'
    ensures RowsDone(members, similar, handled', i + 1)
  {
    handled' := handled;
    for j := i + 1 to |members|
      invariant Merged(near, keys, es, handled') && handled <= handled'
      invariant forall k :: i < k < j && similar(members[i], members[k]) ==> (members[i], members[k]) in handled'
    {
      MergePair(near, similar, members[i], members[j], keys, es, handled');
      handled' := if similar(members[i], members[j]) then handled' + {(members[i], members[j])} else handled';
    }
  }

  method MergeBucket(near: UnionFind, similar: (nat, nat) -> bool, members: seq<nat>,
                     ghost keys: set<nat>, ghost es: Pairs, ghost handled: Pairs) returns (ghost handled': Pairs)
    requires Merged(near, keys, es, handled) && forall x :: x in members ==> x in keys
    requires forall a: nat, b: nat :: similar(a, b) && Compared(members, a, b) ==> (a, b) in es
    modifies near
    ensures Merged(near, keys, es, handled') && handled <= handled'
    ensures forall a: nat, b: nat :: similar(a, b) && Compared(members, a, b) ==> (a, b) in handled'
  {
    handled' := handled;
    var rows := if |members| <= ALL_PAIRS_LIMIT then |members| else 1;
    for i := 0 to rows
      invariant Merged(near, keys, es, handled') && handled <= handled'
      invariant RowsDone(members, similar, handled', i)
    {
      forall j | i < j < |members| && similar(members[i], members[j]) ensures (members[i], members[j]) in es {
        assert Compared(members, members[i], members[j]);
      }
      handled' := MergeRow(near, similar, members, i, keys, es, handled');
    }
  }

  /** Near-family ids are the least keys of the components of the similarity graph. */
  method NearFamilies(keys: set<nat>, buckets: seq<seq<nat>>, similar: (nat, nat) -> bool)
    returns (nearOf: map<nat, nat>)
    requires forall k, x :: 0 <= k < |buckets| && x in buckets[k] ==> x in keys
    ensures LeastOfComponent(keys, SimilarityGraph(keys, buckets, similar), nearOf)
  {
    var near := new UnionFind(keys);
    ghost var es := SimilarityGraph(keys, buckets, similar);
    ghost var handled: Pairs := {};
    for k := 0 to |buckets|
      invariant fresh(near) && Merged(near, keys, es, handled)
      invariant forall n, a: nat, b: nat :: 0 <= n < k && similar(a, b) && Compared(buckets[n], a, b) ==> (a, b) in handled
    {
      forall a, b | similar(a, b) && Compared(buckets[k], a, b) ensures (a, b) in es {
        assert a in buckets[k] && b in buckets[k] && Similar(buckets, similar, a, b);
      }
      handled := MergeBucket(near, similar, buckets[k], keys, es, handled);
    }
    assert Merged(near, keys, es, es);
    nearOf := map[];
    var rest := keys;
    while rest != {}
      invariant fresh(near) && Merged(near, keys, es, es) && rest <= keys && nearOf.Keys == keys - rest
      invariant forall x :: x in nearOf ==> IsLeast(keys, es, x, nearOf[x])
      decreases rest
    {
      var x :| x in rest;
      ghost var p := near.parent;
      var r := near.Find(x);
      KeepsHandled(p, near.parent, es);
      RootsAreLeast(near.parent, near.united, es, keys, x);
      nearOf := nearOf[x := r];
      rest := rest - {x};
    }
  }

  ghost predicate IsLeast(keys: set<nat>, es: Pairs, x: nat, r: nat) {
    Connected(es, x, r) && forall y :: y in keys && Connected(es, x, y) ==> r <= y
  }

  /** Unions along some similar pairs that leave no similar pair apart give the same components. */
  lemma {:induction false} RootsAreLeast(parent: map<nat, nat>, united: Pairs, es: Pairs, keys: set<nat>, x: nat)
    requires Represents(parent, united) && parent.Keys == keys && united <= es && x in keys
    requires forall a, b :: (a, b) in es ==> SameRoot(parent, a, b)
    ensures IsLeast(keys, es, x, Root(parent, x))
  {
    RootIsLeast(parent, united, x, x);
    ConnectedGrows(united, es, x, Root(parent, x));
    forall y | y in keys && Connected(es, x, y) ensures Root(parent, x) <= y {
      var w :| PathFromTo(es, w, x, y);
      PathKeepsRoot(parent, es, w, |w| - 1);
      RootIsFixed(parent, y);
    }
  }

  /** So the ids depend on the similarity graph alone. A large bucket's first member shapes that graph. */
  lemma {:induction false} FamiliesUnique(keys: set<nat>, es: Pairs, f: map<nat, nat>, g: map<nat, nat>)
    requires LeastOfComponent(keys, es, f) && LeastOfComponent(keys, es, g)
    requires forall a, b :: (a, b) in es ==> a in keys && b in keys
    ensures f == g
  {
    forall x | x in keys ensures f[x] == g[x] {
      StaysInKeys(keys, es, x, f[x]);
      StaysInKeys(keys, es, x, g[x]);
    }
  }

  lemma {:induction false} StaysInKeys(keys: set<nat>, es: Pairs, x: nat, y: nat)
    requires x in keys && Connected(es, x, y) && forall a, b :: (a, b) in es ==> a in keys && b in keys
    ensures y in keys
  {
    var w :| PathFromTo(es, w, x, y);
    assert |w| > 1 ==> JoinedAt(es, w, |w| - 2);
  }

  /** Reordering the buckets does not change the graph. */
  lemma {:induction false} BucketOrderIrrelevant(keys: set<nat>, bs: seq<seq<nat>>, cs: seq<seq<nat>>, similar: (nat, nat) -> bool)
    requires forall b :: b in bs <==> b in cs
    ensures SimilarityGraph(keys, bs, similar) == SimilarityGraph(keys, cs, similar)
  {
    forall a, b ensures Similar(bs, similar, a, b) == Similar(cs, similar, a, b) {
      if k :| 0 <= k < |bs| && Compared(bs[k], a, b) {
        assert bs[k] in cs;
        var n :| 0 <= n < |cs| && cs[n] == bs[k];
        assert Compared(cs[n], a, b);
      }
      if k :| 0 <= k < |cs| && Compared(cs[k], a, b) {
        assert cs[k] in bs;
        var n :| 0 <= n < |bs| && bs[n] == cs[k];
        assert Compared(bs[n], a, b);
      }
    }
  }
}
