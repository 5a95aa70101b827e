/** `cycle_effects` of fuzzer/pipeline/goal_tasks.py: the transitive call-effect walk. */
module CycleEffects {
  import opened Wrappers
  import opened Graphs
  import opened CallModel

  datatype Reason =
    | VarInOut | PersistentOrSharedState | ByReferenceOutput
    | PointerWrite | RolePersistentState | RoleInOut | RoleGlobal | RoleExternal
    | StatefulOrIoCall | StgStateful

  datatype Unknown =
    | InstanceEffects | PointerEffect | StgUnavailable | TargetUnavailable
    | CalleeUnavailable | RecursiveCall | CalleeInstance | CalleeInOutAlias | CalleeWriteTargets

  datatype Mode = MultiCycle | UnknownMode | SingleCycle

  // ----- what one POU contributes by itself

  function SymbolReasons(s: Symbol, isTarget: bool): set<Reason> {
    match s.role
    case InOut => if isTarget then {RoleInOut} else {}
    case PersistentState => {RolePersistentState}
    case Global => if s.constant then {} else {RoleGlobal}
    case External => if s.constant then {} else {RoleExternal}
    case OtherRole => {}
  }

  function SymbolUnknown(s: Symbol, isTarget: bool): set<Unknown> {
    if s.role.InOut? && !isTarget then {CalleeInOutAlias} else {}
  }

  function SymbolsReasons(ss: seq<Symbol>, isTarget: bool): set<Reason> {
    if ss == [] then {} else SymbolsReasons(ss[..|ss| - 1], isTarget) + SymbolReasons(ss[|ss| - 1], isTarget)
  }

  function SymbolsUnknown(ss: seq<Symbol>, isTarget: bool): set<Unknown> {
    if ss == [] then {} else SymbolsUnknown(ss[..|ss| - 1], isTarget) + SymbolUnknown(ss[|ss| - 1], isTarget)
  }

  predicate Missing<K(==)>(m: map<K, Pou<K>>, c: Call<K>) {
    c.callee.Absent? || c.callee.value !in m
  }

  function CallReasons<K>(c: Call<K>): set<Reason> {
    if c.stateful then {StatefulOrIoCall} else {}
  }

  function CallUnknown<K(==)>(m: map<K, Pou<K>>, c: Call<K>): set<Unknown> {
    (if c.external || Missing(m, c) then {CalleeUnavailable} else {}) +
    (if !c.external && c.writes && Missing(m, c) then {CalleeWriteTargets} else {})
  }

  function CallsReasons<K>(cs: seq<Call<K>>): set<Reason> {
    if cs == [] then {} else CallsReasons(cs[..|cs| - 1]) + CallReasons(cs[|cs| - 1])
  }

  function CallsUnknown<K(==)>(m: map<K, Pou<K>>, cs: seq<Call<K>>): set<Unknown> {
    if cs == [] then {} else CallsUnknown(m, cs[..|cs| - 1]) + CallUnknown(m, cs[|cs| - 1])
  }

  function LocalReasons<K>(p: Pou<K>, isTarget: bool): set<Reason> {
    (if p.pointerStore then {PointerWrite} else {}) + SymbolsReasons(p.symbols, isTarget)
    + CallsReasons(p.calls) + (if p.stateful then {StgStateful} else {})
  }

  function LocalUnknown<K(==)>(m: map<K, Pou<K>>, p: Pou<K>, isTarget: bool): set<Unknown> {
    (if p.isFunction then {} else {CalleeInstance}) + SymbolsUnknown(p.symbols, isTarget)
    + CallsUnknown(m, p.calls)
  }

  function ReasonsAt<K(==)>(m: map<K, Pou<K>>, target: K, k: K): set<Reason> {
    if k in m then LocalReasons(m[k], k == target) else {}
  }

  function UnknownAt<K(==)>(m: map<K, Pou<K>>, target: K, k: K): set<Unknown> {
    if k in m then LocalUnknown(m, m[k], k == target) else {}
  }

  ghost function ReasonsOver<K>(m: map<K, Pou<K>>, target: K, keys: set<K>): set<Reason> {
    set k, r | k in keys && r in ReasonsAt(m, target, k) :: r
  }

  ghost function UnknownOver<K>(m: map<K, Pou<K>>, target: K, keys: set<K>): set<Unknown> {
    set k, u | k in keys && u in UnknownAt(m, target, k) :: u
  }

  // ----- the search that un-marks on the way back

  /** Keys that the walk from `n` enters while `open` is marked. */
  ghost function Entered<K>(g: Graph<K>, n: K, open: set<K>): set<K>
    decreases g.Keys - open, 1, 0
  {
    if n !in g || n in open then {} else {n} + EnteredAll(g, g[n], open + {n})
  }

  ghost function EnteredAll<K>(g: Graph<K>, cs: seq<K>, open: set<K>): set<K>
    decreases g.Keys - open, 2, |cs|
  {
    if cs == [] then {} else EnteredAll(g, cs[..|cs| - 1], open) + Entered(g, cs[|cs| - 1], open)
  }

  /** Whether the walk from `n` meets a marked key. */
  ghost predicate Recurs<K>(g: Graph<K>, n: K, open: set<K>)
    decreases g.Keys - open, 1, 0
  {
    n in g && (n in open || RecursAny(g, g[n], open + {n}))
  }

  ghost predicate RecursAny<K>(g: Graph<K>, cs: seq<K>, open: set<K>)
    decreases g.Keys - open, 2, |cs|
  {
    cs != [] && (RecursAny(g, cs[..|cs| - 1], open) || Recurs(g, cs[|cs| - 1], open))
  }

  lemma {:induction false} EnteredAllIncludes<K>(g: Graph<K>, cs: seq<K>, open: set<K>, c: K)
    requires c in cs
    ensures Entered(g, c, open) <= EnteredAll(g, cs, open)
    ensures Recurs(g, c, open) ==> RecursAny(g, cs, open)
    decreases |cs|
  {
    var n := |cs| - 1;
    if c != cs[n] {
      EnteredAllIncludes(g, cs[..n], open, c);
    }
  }

  lemma {:induction false} EnteredAllFrom<K>(g: Graph<K>, cs: seq<K>, open: set<K>, k: K) returns (c: K)
    requires k in EnteredAll(g, cs, open)
    ensures c in cs && k in Entered(g, c, open)
    decreases |cs|
  {
    var n := |cs| - 1;
    c := cs[n];
    if k !in Entered(g, c, open) {
      c := EnteredAllFrom(g, cs[..n], open, k);
    }
  }

  lemma {:induction false} RecursAnyFrom<K>(g: Graph<K>, cs: seq<K>, open: set<K>) returns (c: K)
    requires RecursAny(g, cs, open)
    ensures c in cs && Recurs(g, c, open)
    decreases |cs|
  {
    var n := |cs| - 1;
    c := cs[n];
    if !Recurs(g, c, open) {
      c := RecursAnyFrom(g, cs[..n], open);
    }
  }

  ghost predicate Avoids<K>(w: seq<K>, open: set<K>) {
    forall i :: 0 <= i < |w| ==> w[i] !in open
  }

  lemma {:induction false} EnteredIsReached<K(!new)>(g: Graph<K>, n: K, open: set<K>, k: K)
    requires k in Entered(g, n, open)
    ensures Reach(g, n, k)
    decreases g.Keys - open
  {
    if k == n {
      ReachRefl(g, n);
    } else {
      var c := EnteredAllFrom(g, g[n], open + {n}, k);
      EnteredIsReached(g, c, open + {n}, k);
      ReachRefl(g, n);
      ReachStep(g, n, n, c);
      ReachTrans(g, n, c, k);
    }
  }

  /** Cutting out every return to its first node, a walk still ends in the same place: so the walk
      that refuses to re-enter open nodes misses nothing. */
  lemma {:induction false} ReachedIsEntered<K(!new)>(g: Graph<K>, w: seq<K>, open: set<K>)
    requires Walk(g, w) && Avoids(w, open)
    ensures w[|w| - 1] in Entered(g, w[0], open)
    decreases |w|
  {
    var n := w[0];
    if |w| > 1 {
      WalkSlice(g, w, 1, |w|);
      var rest := w[1..|w|];
      if i :| 0 <= i < |rest| && rest[i] == n {
        WalkSlice(g, w, i + 1, |w|);
        ReachedIsEntered(g, w[i + 1..|w|], open);
      } else {
        ReachedIsEntered(g, rest, open + {n});
        assert StepAt(g, w, 0);
        EnteredAllIncludes(g, g[n], open + {n}, rest[0]);
      }
    }
  }

  /** Un-marking loses nothing: from no open keys the walk enters exactly the reachable ones. */
  lemma {:induction false} EnteredExact<K(!new)>(g: Graph<K>, n: K, k: K)
    requires n in g
    ensures k in Entered(g, n, {}) <==> Reach(g, n, k)
  {
    if k in Entered(g, n, {}) {
      EnteredIsReached(g, n, {}, k);
    }
    if Reach(g, n, k) {
      var w :| WalkFromTo(g, w, n, k);
      ReachedIsEntered(g, w, {});
    }
  }

  // ----- recursion

  /** A walk that comes back to an open key or to itself. */
  ghost predicate Returns<K>(g: Graph<K>, w: seq<K>, open: set<K>) {
    Walk(g, w) && (w[|w| - 1] in open || w[|w| - 1] in w[..|w| - 1])
  }

  lemma {:induction false} RecursReturns<K(!new)>(g: Graph<K>, n: K, open: set<K>) returns (w: seq<K>)
    requires Recurs(g, n, open)
    ensures Returns(g, w, open) && w[0] == n
    decreases g.Keys - open
  {
    if n in open {
      w := [n];
    } else {
      var c := RecursAnyFrom(g, g[n], open + {n});
      var rest := RecursReturns(g, c, open + {n});
      WalkPrepend(g, n, rest);
      w := [n] + rest;
      assert w[0] == n && w[..|w| - 1] == [n] + rest[..|rest| - 1];
    }
  }

  lemma {:induction false} ReturnsRecurs<K>(g: Graph<K>, w: seq<K>, open: set<K>)
    requires Returns(g, w, open)
    ensures Recurs(g, w[0], open)
    decreases |w|
  {
    if w[0] !in open {
      assert |w| > 1 && StepAt(g, w, 0);
      WalkSlice(g, w, 1, |w|);
      var rest := w[1..|w|];
      assert rest[..|rest| - 1] == w[..|w| - 1][1..];
      assert Returns(g, rest, open + {w[0]}) by {
        var last := w[|w| - 1];
        if last !in open && last != w[0] {
          var i :| 0 <= i < |w| - 1 && w[i] == last;
          assert rest[..|rest| - 1][i - 1] == last;
        }
      }
      ReturnsRecurs(g, rest, open + {w[0]});
      EnteredAllIncludes(g, g[w[0]], open + {w[0]}, rest[0]);
    }
  }

  ghost predicate ReachesCycle<K(!new)>(g: Graph<K>, n: K) {
    exists k :: Reach(g, n, k) && OnCycle(g, k)
  }

  /** Recursion is met exactly when a cycle is reachable. */
  lemma {:induction false} RecursExact<K(!new)>(g: Graph<K>, n: K)
    ensures Recurs(g, n, {}) <==> ReachesCycle(g, n)
  {
    if Recurs(g, n, {}) {
      var w := RecursReturns(g, n, {});
      var i :| 0 <= i < |w| - 1 && w[i] == w[|w| - 1];
      RepeatIsCycle(g, w, i, |w| - 1);
      WalkSlice(g, w, 0, i + 1);
      assert WalkFromTo(g, w[0..i + 1], n, w[i]);
      assert OnCycle(g, w[i]);
    }
    if k :| Reach(g, n, k) && OnCycle(g, k) {
      var a :| WalkFromTo(g, a, n, k);
      var c :| Cycle(g, c) && c[0] == k;
      WalkJoin(g, a, c);
      var w := a + c[1..];
      assert w[|w| - 1] == k && w[..|w| - 1][|a| - 1] == k;
      ReturnsRecurs(g, w, {});
    }
  }

  // ----- what the walk collects

  /** What `inspect` adds to `reasons` and `unknown` for one name. */
  ghost function NameReasons<K(!new)>(m: map<K, Pou<K>>, target: K, name: Maybe<K>, open: set<K>): set<Reason> {
    if name.Absent? then {} else ReasonsOver(m, target, Entered(CallGraph(m), name.value, open))
  }

  ghost function NameUnknown<K(!new)>(m: map<K, Pou<K>>, target: K, name: Maybe<K>, open: set<K>): set<Unknown> {
    if name.Absent? || name.value !in m then {CalleeUnavailable}
    else
      UnknownOver(m, target, Entered(CallGraph(m), name.value, open)) + Flag(Recurs(CallGraph(m), name.value, open))
  }

  /** The same for one call, and for the calls of a POU. */
  ghost function CallAddsReasons<K(!new)>(m: map<K, Pou<K>>, target: K, c: Call<K>, open: set<K>): set<Reason> {
    CallReasons(c) + if c.external then {} else NameReasons(m, target, c.callee, open)
  }

  ghost function CallAddsUnknown<K(!new)>(m: map<K, Pou<K>>, target: K, c: Call<K>, open: set<K>): set<Unknown> {
    CallUnknown(m, c) + if c.external then {} else NameUnknown(m, target, c.callee, open)
  }

  ghost function CallsAddReasons<K(!new)>(m: map<K, Pou<K>>, target: K, cs: seq<Call<K>>, open: set<K>): set<Reason> {
    if cs == [] then {}
    else CallsAddReasons(m, target, cs[..|cs| - 1], open) + CallAddsReasons(m, target, cs[|cs| - 1], open)
  }

  ghost function CallsAddUnknown<K(!new)>(m: map<K, Pou<K>>, target: K, cs: seq<Call<K>>, open: set<K>): set<Unknown> {
    if cs == [] then {}
    else CallsAddUnknown(m, target, cs[..|cs| - 1], open) + CallAddsUnknown(m, target, cs[|cs| - 1], open)
  }

  lemma {:induction false} OverUnion<K(!new)>(m: map<K, Pou<K>>, target: K, a: set<K>, b: set<K>)
    ensures ReasonsOver(m, target, a + b) == ReasonsOver(m, target, a) + ReasonsOver(m, target, b)
    ensures UnknownOver(m, target, a + b) == UnknownOver(m, target, a) + UnknownOver(m, target, b)
  {
  }

  ghost function EnteredBy<K>(g: Graph<K>, c: Call<K>, open: set<K>): set<K> {
    if c.external || c.callee.Absent? then {} else Entered(g, c.callee.value, open)
  }

  ghost predicate RecursBy<K>(g: Graph<K>, c: Call<K>, open: set<K>) {
    !c.external && c.callee.Given? && Recurs(g, c.callee.value, open)
  }

  lemma {:induction false} LastCall<K>(g: Graph<K>, cs: seq<Call<K>>, open: set<K>)
    requires cs != []
    ensures var front, c := cs[..|cs| - 1], cs[|cs| - 1];
            && EnteredAll(g, Callees(cs), open) == EnteredAll(g, Callees(front), open) + EnteredBy(g, c, open)
            && RecursAny(g, Callees(cs), open) == (RecursAny(g, Callees(front), open) || RecursBy(g, c, open))
  {
    var old' := Callees(cs[..|cs| - 1]);
    var c := cs[|cs| - 1];
    if c.external || c.callee.Absent? {
      assert old' + [] == old';
    } else {
      assert (old' + [c.callee.value])[..|old'|] == old';
    }
  }

  lemma {:induction false} CallsTotalReasons<K(!new)>(m: map<K, Pou<K>>, target: K, cs: seq<Call<K>>, open: set<K>)
    ensures CallsAddReasons(m, target, cs, open)
         == CallsReasons(cs) + ReasonsOver(m, target, EnteredAll(CallGraph(m), Callees(cs), open))
    decreases |cs|
  {
    if cs != [] {
      var g, front, c := CallGraph(m), cs[..|cs| - 1], cs[|cs| - 1];
      CallsTotalReasons(m, target, front, open);
      LastCall(g, cs, open);
      OverUnion(m, target, EnteredAll(g, Callees(front), open), EnteredBy(g, c, open));
      assert CallAddsReasons(m, target, c, open) == CallReasons(c) + ReasonsOver(m, target, EnteredBy(g, c, open));
    }
  }

  function Flag(recursive: bool): set<Unknown> {
    if recursive then {RecursiveCall} else {}
  }

  lemma {:induction false} CallsTotalUnknown<K(!new)>(m: map<K, Pou<K>>, target: K, cs: seq<Call<K>>, open: set<K>)
    ensures CallsAddUnknown(m, target, cs, open)
         == CallsUnknown(m, cs) + UnknownOver(m, target, EnteredAll(CallGraph(m), Callees(cs), open))
            + Flag(RecursAny(CallGraph(m), Callees(cs), open))
    decreases |cs|
  {
    if cs != [] {
      var g, front, c := CallGraph(m), cs[..|cs| - 1], cs[|cs| - 1];
      CallsTotalUnknown(m, target, front, open);
      LastCall(g, cs, open);
      OverUnion(m, target, EnteredAll(g, Callees(front), open), EnteredBy(g, c, open));
      CallUnknownSplit(m, target, c, open);
    }
  }

  lemma {:induction false} CallUnknownSplit<K(!new)>(m: map<K, Pou<K>>, target: K, c: Call<K>, open: set<K>)
    ensures var g := CallGraph(m);
            CallAddsUnknown(m, target, c, open)
            == CallUnknown(m, c) + UnknownOver(m, target, EnteredBy(g, c, open)) + Flag(RecursBy(g, c, open))
  {
  }

  lemma {:induction false} OverKey<K(!new)>(m: map<K, Pou<K>>, target: K, key: K, rest: set<K>)
    ensures ReasonsOver(m, target, {key} + rest) == ReasonsAt(m, target, key) + ReasonsOver(m, target, rest)
    ensures UnknownOver(m, target, {key} + rest) == UnknownAt(m, target, key) + UnknownOver(m, target, rest)
  {
    OverUnion(m, target, {key}, rest);
    assert ReasonsOver(m, target, {key}) == ReasonsAt(m, target, key);
    assert UnknownOver(m, target, {key}) == UnknownAt(m, target, key);
  }

  lemma {:induction false} EnterKey<K(!new)>(m: map<K, Pou<K>>, key: K, open: set<K>)
    requires key in m && key !in open
    ensures var g, cs := CallGraph(m), Callees(m[key].calls);
            && Entered(g, key, open) == {key} + EnteredAll(g, cs, open + {key})
            && Recurs(g, key, open) == RecursAny(g, cs, open + {key})
  {
  }

  /** A key contributes its own facts and those of its calls. */
  lemma {:induction false} NameTotalReasons<K(!new)>(m: map<K, Pou<K>>, target: K, key: K, open: set<K>)
    requires key in m && key !in open
    ensures var p := m[key];
            NameReasons(m, target, Given(key), open)
            == (if p.pointerStore then {PointerWrite} else {}) + SymbolsReasons(p.symbols, key == target)
               + CallsAddReasons(m, target, p.calls, open + {key}) + (if p.stateful then {StgStateful} else {})
  {
    EnterKey(m, key, open);
    OverKey(m, target, key, EnteredAll(CallGraph(m), Callees(m[key].calls), open + {key}));
    CallsTotalReasons(m, target, m[key].calls, open + {key});
  }

  lemma {:induction false} NameTotalUnknown<K(!new)>(m: map<K, Pou<K>>, target: K, key: K, open: set<K>)
    requires key in m && key !in open
    ensures var p := m[key];
            NameUnknown(m, target, Given(key), open)
            == (if p.isFunction then {} else {CalleeInstance}) + SymbolsUnknown(p.symbols, key == target)
               + CallsAddUnknown(m, target, p.calls, open + {key})
  {
    EnterKey(m, key, open);
    OverKey(m, target, key, EnteredAll(CallGraph(m), Callees(m[key].calls), open + {key}));
    CallsTotalUnknown(m, target, m[key].calls, open + {key});
  }

  // ----- the walk itself

  class EffectWalk<K(==, !new)> {
    const byName: map<K, Pou<K>>
    const target: K
    var reasons: set<Reason>
    var unknown: set<Unknown>
    var visiting: set<K>

    constructor (m: map<K, Pou<K>>, t: K, rs: set<Reason>, us: set<Unknown>)
      ensures byName == m && target == t && reasons == rs && unknown == us && visiting == {}
    {
      byName, target, reasons, unknown, visiting := m, t, rs, us, {};
    }

    method Inspect(name: Maybe<K>)
      modifies this
      ensures visiting == old(visiting)
      ensures reasons == old(reasons) + NameReasons(byName, target, name, visiting)
      ensures unknown == old(unknown) + NameUnknown(byName, target, name, visiting)
      decreases byName.Keys - visiting, 0
    {
      if name.Absent? || name.value !in byName {
        unknown := unknown + {CalleeUnavailable};
        return;
      }
      if name.value in visiting {
        unknown := unknown + {RecursiveCall};
        return;
      }
      NameTotalReasons(byName, target, name.value, visiting);
      NameTotalUnknown(byName, target, name.value, visiting);
      visiting := visiting + {name.value};
      InspectPou(name.value);
      visiting := visiting - {name.value};
    }

    method InspectPou(key: K)
      requires key in byName
      modifies this
      ensures visiting == old(visiting)
      ensures var p := byName[key];
              && reasons == old(reasons) + (if p.pointerStore then {PointerWrite} else {})
                   + SymbolsReasons(p.symbols, key == target) + CallsAddReasons(byName, target, p.calls, visiting)
                   + (if p.stateful then {StgStateful} else {})
              && unknown == old(unknown) + (if p.isFunction then {} else {CalleeInstance})
                   + SymbolsUnknown(p.symbols, key == target) + CallsAddUnknown(byName, target, p.calls, visiting)
      decreases byName.Keys - visiting, 3
    {
      var pou := byName[key];
      if !pou.isFunction {
        unknown := unknown + {CalleeInstance};
      }
      if pou.pointerStore {
        reasons := reasons + {PointerWrite};
      }
      InspectSymbols(pou.symbols, key == target);
      InspectCalls(pou.calls);
      if pou.stateful {
        reasons := reasons + {StgStateful};
      }
    }

    method InspectSymbols(symbols: seq<Symbol>, isTarget: bool)
      modifies this`reasons, this`unknown
      ensures reasons == old(reasons) + SymbolsReasons(symbols, isTarget)
      ensures unknown == old(unknown) + SymbolsUnknown(symbols, isTarget)
    {
      for i := 0 to |symbols|
        invariant reasons == old(reasons) + SymbolsReasons(symbols[..i], isTarget)
        invariant unknown == old(unknown) + SymbolsUnknown(symbols[..i], isTarget)
      {
        assert symbols[..i + 1][..i] == symbols[..i];
        var s := symbols[i];
        if s.role.InOut? && !isTarget {
          unknown := unknown + {CalleeInOutAlias};
        } else {
          reasons := reasons + SymbolReasons(s, isTarget);
        }
      }
      assert symbols[..|symbols|] == symbols;
    }

    method InspectCalls(calls: seq<Call<K>>)
      modifies this
      ensures visiting == old(visiting)
      ensures reasons == old(reasons) + CallsAddReasons(byName, target, calls, visiting)
      ensures unknown == old(unknown) + CallsAddUnknown(byName, target, calls, visiting)
      decreases byName.Keys - visiting, 2
    {
      for i := 0 to |calls|
        invariant visiting == old(visiting)
        invariant reasons == old(reasons) + CallsAddReasons(byName, target, calls[..i], visiting)
        invariant unknown == old(unknown) + CallsAddUnknown(byName, target, calls[..i], visiting)
      {
        InspectCall(calls[i]);
        assert calls[..i + 1][..i] == calls[..i];
      }
      assert calls[..|calls|] == calls;
    }

    method InspectCall(c: Call<K>)
      modifies this
      ensures visiting == old(visiting)
      ensures reasons == old(reasons) + CallAddsReasons(byName, target, c, visiting)
      ensures unknown == old(unknown) + CallAddsUnknown(byName, target, c, visiting)
      decreases byName.Keys - visiting, 1
    {
      if c.stateful {
        reasons := reasons + {StatefulOrIoCall};
      }
      if c.external {
        unknown := unknown + {CalleeUnavailable};
      } else {
        if c.writes && Missing(byName, c) {
          unknown := unknown + {CalleeWriteTargets};
        }
        Inspect(c.callee);
      }
    }
  }

  // ----- the ABI facts and the verdict

  datatype BlockKind = InOutBlock | VarBlock | GlobalBlock | ExternalBlock | OutputBlock | OtherBlock

  datatype Field = Field(block: BlockKind, pointer: bool)

  datatype Abi<K> = Abi(isFunction: bool, name: Maybe<K>, frame: seq<Field>, shared: seq<Field>, state: seq<Field>)

  function FieldReasons(f: Field): set<Reason> {
    match f.block
    case InOutBlock => {VarInOut}
    case VarBlock | GlobalBlock | ExternalBlock => {PersistentOrSharedState}
    case _ => {}
  }

  function FieldUnknown(f: Field): set<Unknown> {
    if f.pointer then {PointerEffect} else {}
  }

  ghost function AbiReasons<K>(abi: Abi<K>): set<Reason> {
    (set f, r | f in abi.frame + abi.shared + abi.state && r in FieldReasons(f) :: r)
    + (if exists f :: f in abi.shared && f.block == OutputBlock then {ByReferenceOutput} else {})
  }

  ghost function AbiUnknown<K>(abi: Abi<K>): set<Unknown> {
    (if abi.isFunction then {} else {InstanceEffects})
    + set f, u | f in abi.frame + abi.shared + abi.state && u in FieldUnknown(f) :: u
  }

  ghost function ReachableKeys<K(!new)>(m: map<K, Pou<K>>, t: K): set<K> {
    set k | k in m && Reach(CallGraph(m), t, k)
  }

  predicate TargetKnown<K(==)>(abi: Abi<K>, m: map<K, Pou<K>>) {
    abi.name.Given? && abi.name.value in m
  }

  /** The declarative result: ABI facts and the local facts of every reachable POU. */
  ghost function AllReasons<K(!new)>(abi: Abi<K>, model: Maybe<seq<Pou<K>>>): set<Reason> {
    AbiReasons(abi) +
    if model.Given? && TargetKnown(abi, ByName(model.value)) then
      var m, t := ByName(model.value), abi.name.value;
      ReasonsOver(m, t, ReachableKeys(m, t))
    else {}
  }

  ghost function AllUnknown<K(!new)>(abi: Abi<K>, model: Maybe<seq<Pou<K>>>): set<Unknown> {
    AbiUnknown(abi) +
    if model.Absent? then {StgUnavailable}
    else if !TargetKnown(abi, ByName(model.value)) then {TargetUnavailable}
    else
      var m, t := ByName(model.value), abi.name.value;
      UnknownOver(m, t, ReachableKeys(m, t)) + Flag(ReachesCycle(CallGraph(m), t))
  }

  lemma {:induction false} WalkIsExact<K(!new)>(m: map<K, Pou<K>>, t: K)
    requires t in m
    ensures NameReasons(m, t, Given(t), {}) == ReasonsOver(m, t, ReachableKeys(m, t))
    ensures NameUnknown(m, t, Given(t), {})
         == UnknownOver(m, t, ReachableKeys(m, t)) + Flag(ReachesCycle(CallGraph(m), t))
  {
    var g := CallGraph(m);
    forall k ensures k in Entered(g, t, {}) <==> k in ReachableKeys(m, t) {
      EnteredExact(g, t, k);
      if Reach(g, t, k) {
        var w :| WalkFromTo(g, w, t, k);
      }
    }
    assert Entered(g, t, {}) == ReachableKeys(m, t);
    RecursExact(g, t);
  }

  method AbiFacts<K>(abi: Abi<K>) returns (reasons: set<Reason>, unknown: set<Unknown>)
    ensures reasons == AbiReasons(abi) && unknown == AbiUnknown(abi)
  {
    reasons, unknown := {}, {};
    if !abi.isFunction {
      unknown := {InstanceEffects};
    }
    var fields := abi.frame + abi.shared + abi.state;
    for i := 0 to |fields|
      invariant reasons == set f, r | f in fields[..i] && r in FieldReasons(f) :: r
      invariant unknown == (if abi.isFunction then {} else {InstanceEffects})
                           + set f, u | f in fields[..i] && u in FieldUnknown(f) :: u
    {
      assert fields[..i + 1] == fields[..i] + [fields[i]];
      reasons := reasons + FieldReasons(fields[i]);
      unknown := unknown + FieldUnknown(fields[i]);
    }
    assert fields[..|fields|] == fields;
    if exists f :: f in abi.shared && f.block == OutputBlock {
      reasons := reasons + {ByReferenceOutput};
    }
  }

  /** `cycle_effects` is exact on every finite call graph. */
  method CycleEffects<K(==, !new)>(abi: Abi<K>, model: Maybe<seq<Pou<K>>>)
    returns (mode: Mode, reasons: set<Reason>, unknown: set<Unknown>)
    ensures reasons == AllReasons(abi, model)
    ensures unknown == AllUnknown(abi, model)
    ensures mode == if reasons != {} then MultiCycle else if unknown != {} then UnknownMode else SingleCycle
  {
    reasons, unknown := AbiFacts(abi);
    if model.Absent? {
      unknown := unknown + {StgUnavailable};
    } else {
      var m := ByName(model.value);
      if !TargetKnown(abi, m) {
        unknown := unknown + {TargetUnavailable};
      } else {
        var walk := new EffectWalk(m, abi.name.value, reasons, unknown);
        walk.Inspect(abi.name);
        WalkIsExact(m, abi.name.value);
        reasons, unknown := walk.reasons, walk.unknown;
      }
    }
    mode := if reasons != {} then MultiCycle else if unknown != {} then UnknownMode else SingleCycle;
  }

  // ----- what single_cycle means

  ghost predicate QuietSymbol(s: Symbol) {
    s.role.OtherRole? || ((s.role.Global? || s.role.External?) && s.constant)
  }

  ghost predicate ResolvedCall<K>(m: map<K, Pou<K>>, c: Call<K>) {
    !c.external && c.callee.Given? && c.callee.value in m
  }

  ghost predicate QuietPou<K>(m: map<K, Pou<K>>, p: Pou<K>) {
    && p.isFunction && !p.pointerStore && !p.stateful
    && (forall i :: 0 <= i < |p.symbols| ==> QuietSymbol(p.symbols[i]))
    && (forall i :: 0 <= i < |p.calls| ==> ResolvedCall(m, p.calls[i]) && !p.calls[i].stateful)
  }

  lemma {:induction false} QuietSymbols(ss: seq<Symbol>, isTarget: bool)
    ensures SymbolsReasons(ss, isTarget) == {} && SymbolsUnknown(ss, isTarget) == {}
       <==> forall i :: 0 <= i < |ss| ==> QuietSymbol(ss[i])
  {
    if ss != [] {
      var front := ss[..|ss| - 1];
      QuietSymbols(front, isTarget);
      assert forall i :: 0 <= i < |front| ==> front[i] == ss[i];
      assert SymbolReasons(ss[|ss| - 1], isTarget) == {} && SymbolUnknown(ss[|ss| - 1], isTarget) == {}
        <==> QuietSymbol(ss[|ss| - 1]);
    }
  }

  lemma {:induction false} QuietCalls<K>(m: map<K, Pou<K>>, cs: seq<Call<K>>)
    ensures CallsReasons(cs) == {} && CallsUnknown(m, cs) == {}
       <==> forall i :: 0 <= i < |cs| ==> ResolvedCall(m, cs[i]) && !cs[i].stateful
  {
    if cs != [] {
      var front := cs[..|cs| - 1];
      QuietCalls(m, front);
      assert forall i :: 0 <= i < |front| ==> front[i] == cs[i];
      assert CallReasons(cs[|cs| - 1]) == {} && CallUnknown(m, cs[|cs| - 1]) == {}
        <==> ResolvedCall(m, cs[|cs| - 1]) && !cs[|cs| - 1].stateful;
    }
  }

  lemma {:induction false} QuietExact<K(!new)>(m: map<K, Pou<K>>, t: K, k: K)
    requires k in m
    ensures ReasonsAt(m, t, k) == {} && UnknownAt(m, t, k) == {} <==> QuietPou(m, m[k])
  {
    QuietSymbols(m[k].symbols, k == t);
    QuietCalls(m, m[k].calls);
  }

  lemma {:induction false} OverEmpty<K(!new)>(m: map<K, Pou<K>>, t: K, keys: set<K>)
    ensures ReasonsOver(m, t, keys) == {} <==> forall k :: k in keys ==> ReasonsAt(m, t, k) == {}
    ensures UnknownOver(m, t, keys) == {} <==> forall k :: k in keys ==> UnknownAt(m, t, k) == {}
  {
    if k :| k in keys && ReasonsAt(m, t, k) != {} {
      var r :| r in ReasonsAt(m, t, k);
      assert r in ReasonsOver(m, t, keys);
    }
    if k :| k in keys && UnknownAt(m, t, k) != {} {
      var u :| u in UnknownAt(m, t, k);
      assert u in UnknownOver(m, t, keys);
    }
  }

  /** A single-cycle verdict holds exactly when the ABI is clean and the reachable call graph is
      known, acyclic, closed and free of effects. */
  lemma {:induction false} SingleCycleExact<K(!new)>(abi: Abi<K>, model: Maybe<seq<Pou<K>>>)
    ensures AllReasons(abi, model) == {} && AllUnknown(abi, model) == {}
       <==> && AbiReasons(abi) == {} && AbiUnknown(abi) == {}
            && model.Given? && TargetKnown(abi, ByName(model.value))
            && var m, t := ByName(model.value), abi.name.value;
               && !ReachesCycle(CallGraph(m), t)
               && forall k :: k in ReachableKeys(m, t) ==> QuietPou(m, m[k])
  {
    if model.Given? && TargetKnown(abi, ByName(model.value)) {
      var m, t := ByName(model.value), abi.name.value;
      OverEmpty(m, t, ReachableKeys(m, t));
      forall k | k in ReachableKeys(m, t)
        ensures ReasonsAt(m, t, k) == {} && UnknownAt(m, t, k) == {} <==> QuietPou(m, m[k])
      {
        QuietExact(m, t, k);
      }
    }
  }
}
