/** Fact by fact, when `cycle_effects` of fuzzer/pipeline/goal_tasks.py reports it. */
module EffectFacts {
  import opened Wrappers
  import opened Graphs
  import opened CallModel
  import opened CycleEffects

  // ----- one POU

  ghost predicate HasRole<K>(p: Pou<K>, r: Role) {
    exists i :: 0 <= i < |p.symbols| && p.symbols[i].role == r
  }

  ghost predicate HasVariable<K>(p: Pou<K>, r: Role) {
    exists i :: 0 <= i < |p.symbols| && p.symbols[i] == Symbol(r, false)
  }

  /** The POU gives this reason. */
  ghost predicate Gives<K>(p: Pou<K>, isTarget: bool, r: Reason) {
    match r
    case PointerWrite => p.pointerStore
    case StgStateful => p.stateful
    case StatefulOrIoCall => exists i :: 0 <= i < |p.calls| && p.calls[i].stateful
    case RolePersistentState => HasRole(p, PersistentState)
    case RoleInOut => isTarget && HasRole(p, InOut)
    case RoleGlobal => HasVariable(p, Global)
    case RoleExternal => HasVariable(p, External)
    case _ => false
  }

  /** No POU has the name of the callee. */
  ghost predicate Nameless<K>(pous: seq<Pou<K>>, c: Call<K>) {
    forall i :: 0 <= i < |pous| ==> c.callee.Absent? || !NamedBy(pous[i], c.callee.value)
  }

  ghost predicate NamedBy<K>(p: Pou<K>, k: K) {
    p.name == Given(k) || p.qualified == Given(k)
  }

  /** The POU leaves this unknown. */
  ghost predicate LeavesOpen<K>(pous: seq<Pou<K>>, p: Pou<K>, isTarget: bool, u: Unknown) {
    match u
    case CalleeInstance => !p.isFunction
    case CalleeInOutAlias => !isTarget && HasRole(p, InOut)
    case CalleeUnavailable => exists i :: 0 <= i < |p.calls| && (p.calls[i].external || Nameless(pous, p.calls[i]))
    case CalleeWriteTargets => exists i :: 0 <= i < |p.calls| && !p.calls[i].external && p.calls[i].writes && Nameless(pous, p.calls[i])
    case _ => false
  }

  lemma {:induction false} SymbolsSay(ss: seq<Symbol>, isTarget: bool, r: Reason)
    ensures r in SymbolsReasons(ss, isTarget) <==> exists i :: 0 <= i < |ss| && SymbolSays(ss[i], isTarget, r)
    ensures forall u :: u in SymbolsUnknown(ss, isTarget)
                        <==> u == CalleeInOutAlias && !isTarget && exists i :: 0 <= i < |ss| && ss[i].role == InOut
  {
    if ss != [] {
      var front := ss[..|ss| - 1];
      SymbolsSay(front, isTarget, r);
      assert ss == front + [ss[|ss| - 1]];
    }
  }

  ghost predicate SymbolSays(s: Symbol, isTarget: bool, r: Reason) {
    match r
    case RolePersistentState => s.role == PersistentState
    case RoleInOut => isTarget && s.role == InOut
    case RoleGlobal => s == Symbol(Global, false)
    case RoleExternal => s == Symbol(External, false)
    case _ => false
  }

  lemma {:induction false} CallsSay<K>(cs: seq<Call<K>>, r: Reason)
    ensures r in CallsReasons(cs) <==> r == StatefulOrIoCall && exists i :: 0 <= i < |cs| && cs[i].stateful
  {
    if cs != [] {
      CallsSay(cs[..|cs| - 1], r);
      assert cs == cs[..|cs| - 1] + [cs[|cs| - 1]];
    }
  }

  lemma {:induction false} LocalReasonsExact<K>(p: Pou<K>, isTarget: bool, r: Reason)
    ensures r in LocalReasons(p, isTarget) <==> Gives(p, isTarget, r)
  {
    SymbolsSay(p.symbols, isTarget, r);
    CallsSay(p.calls, r);
  }

  /** The dictionary of POUs: the last POU that has the name. */
  lemma {:induction false} ByNameExact<K(!new)>(pous: seq<Pou<K>>, k: K)
    ensures k in ByName(pous) <==> exists i :: 0 <= i < |pous| && NamedBy(pous[i], k)
    ensures forall i: nat :: LastNamed(pous, k, i) ==> ByName(pous)[k] == pous[i]
  {
    NamedExact(pous, k);
    forall i: nat | LastNamed(pous, k, i) ensures ByName(pous)[k] == pous[i] {
      LastIsMeant(pous, k, i);
    }
  }

  ghost predicate LastNamed<K>(pous: seq<Pou<K>>, k: K, i: nat) {
    i < |pous| && NamedBy(pous[i], k) && forall j :: i < j < |pous| ==> !NamedBy(pous[j], k)
  }

  lemma {:induction false} NamedExact<K(!new)>(pous: seq<Pou<K>>, k: K)
    ensures k in ByName(pous) <==> exists i :: 0 <= i < |pous| && NamedBy(pous[i], k)
  {
    if pous != [] {
      var front := pous[..|pous| - 1];
      NamedExact(front, k);
      assert pous == front + [pous[|pous| - 1]];
    }
  }

  lemma {:induction false} LastIsMeant<K(!new)>(pous: seq<Pou<K>>, k: K, i: nat)
    requires LastNamed(pous, k, i)
    ensures k in ByName(pous) && ByName(pous)[k] == pous[i]
  {
    var front, last := pous[..|pous| - 1], pous[|pous| - 1];
    if i < |pous| - 1 {
      assert LastNamed(front, k, i);
      LastIsMeant(front, k, i);
      assert !NamedBy(last, k);
    }
  }

  lemma {:induction false} MissingExact<K(!new)>(pous: seq<Pou<K>>, c: Call<K>)
    ensures Missing(ByName(pous), c) <==> Nameless(pous, c)
  {
    if c.callee.Given? { ByNameExact(pous, c.callee.value); }
  }

  lemma {:induction false} CallsLeave<K(!new)>(pous: seq<Pou<K>>, cs: seq<Call<K>>, u: Unknown)
    ensures u in CallsUnknown(ByName(pous), cs) <==> exists i :: 0 <= i < |cs| && CallLeaves(pous, cs[i], u)
  {
    if cs != [] {
      var last := cs[|cs| - 1];
      CallsLeave(pous, cs[..|cs| - 1], u);
      MissingExact(pous, last);
      assert cs == cs[..|cs| - 1] + [last];
    }
  }

  ghost predicate CallLeaves<K>(pous: seq<Pou<K>>, c: Call<K>, u: Unknown) {
    match u
    case CalleeUnavailable => c.external || Nameless(pous, c)
    case CalleeWriteTargets => !c.external && c.writes && Nameless(pous, c)
    case _ => false
  }

  lemma {:induction false} LocalUnknownExact<K(!new)>(pous: seq<Pou<K>>, p: Pou<K>, isTarget: bool, u: Unknown)
    ensures u in LocalUnknown(ByName(pous), p, isTarget) <==> LeavesOpen(pous, p, isTarget, u)
  {
    SymbolsSay(p.symbols, isTarget, RoleInOut);
    CallsLeave(pous, p.calls, u);
  }

  // ----- the fields of the ABI

  ghost predicate AbiGives<K>(abi: Abi<K>, r: Reason) {
    match r
    case VarInOut => exists f :: f in abi.frame + abi.shared + abi.state && f.block == InOutBlock
    case PersistentOrSharedState =>
      exists f :: f in abi.frame + abi.shared + abi.state && f.block in {VarBlock, GlobalBlock, ExternalBlock}
    case ByReferenceOutput => exists f :: f in abi.shared && f.block == OutputBlock
    case _ => false
  }

  ghost predicate AbiLeavesOpen<K>(abi: Abi<K>, u: Unknown) {
    match u
    case InstanceEffects => !abi.isFunction
    case PointerEffect => exists f :: f in abi.frame + abi.shared + abi.state && f.pointer
    case _ => false
  }

  ghost predicate FieldGives(f: Field, r: Reason) {
    || (r == VarInOut && f.block == InOutBlock)
    || (r == PersistentOrSharedState && f.block in {VarBlock, GlobalBlock, ExternalBlock})
  }

  lemma {:induction false} AbiExact<K>(abi: Abi<K>, r: Reason, u: Unknown)
    ensures r in AbiReasons(abi) <==> AbiGives(abi, r)
    ensures u in AbiUnknown(abi) <==> AbiLeavesOpen(abi, u)
  {
    var fields := abi.frame + abi.shared + abi.state;
    forall f
      ensures r in FieldReasons(f) <==> FieldGives(f, r)
    {
    }
    FieldsGive(fields, r);
    FieldsLeave(fields, u);
  }

  lemma {:induction false} FieldsGive(fields: seq<Field>, r: Reason)
    ensures r in (set f, q | f in fields && q in FieldReasons(f) :: q) <==> exists f :: f in fields && r in FieldReasons(f)
  {
  }

  lemma {:induction false} FieldsLeave(fields: seq<Field>, u: Unknown)
    ensures u in (set f, v | f in fields && v in FieldUnknown(f) :: v) <==> u == PointerEffect && exists f :: f in fields && f.pointer
  {
    if f :| f in fields && f.pointer { assert PointerEffect in FieldUnknown(f); }
  }

  // ----- the verdict

  /** A POU that the target's calls reach, the target included. */
  ghost predicate Reached<K(!new)>(pous: seq<Pou<K>>, t: K, k: K) {
    k in ByName(pous) && Reach(CallGraph(ByName(pous)), t, k)
  }

  ghost predicate Known<K>(abi: Abi<K>, model: Maybe<seq<Pou<K>>>) {
    model.Given? && abi.name.Given? && exists i :: 0 <= i < |model.value| && NamedBy(model.value[i], abi.name.value)
  }

  /** A reason is reported exactly when the ABI gives it, or a POU that the calls reach. */
  lemma {:induction false} ReasonsExact<K(!new)>(abi: Abi<K>, model: Maybe<seq<Pou<K>>>, r: Reason)
    ensures r in AllReasons(abi, model)
       <==> || AbiGives(abi, r)
            || (Known(abi, model)
                && exists k :: Reached(model.value, abi.name.value, k) && Gives(ByName(model.value)[k], k == abi.name.value, r))
  {
    AbiExact(abi, r, InstanceEffects);
    if model.Given? && abi.name.Given? {
      ByNameExact(model.value, abi.name.value);
      ReachedGive(model.value, abi.name.value, r);
    }
  }

  lemma {:induction false} ReachedGive<K(!new)>(pous: seq<Pou<K>>, t: K, r: Reason)
    ensures var m := ByName(pous);
            r in ReasonsOver(m, t, ReachableKeys(m, t)) <==> exists k :: Reached(pous, t, k) && Gives(m[k], k == t, r)
  {
    var m := ByName(pous);
    ReasonsOverExact(pous, t, r);
    forall k | k in m ensures r in ReasonsAt(m, t, k) <==> Gives(m[k], k == t, r) {
      LocalReasonsExact(m[k], k == t, r);
    }
  }

  lemma {:induction false} ReasonsOverExact<K(!new)>(pous: seq<Pou<K>>, t: K, r: Reason)
    ensures var m := ByName(pous);
            r in ReasonsOver(m, t, ReachableKeys(m, t)) <==> exists k :: Reached(pous, t, k) && r in ReasonsAt(m, t, k)
  {
    var m := ByName(pous);
    if k :| Reached(pous, t, k) && r in ReasonsAt(m, t, k) { assert k in ReachableKeys(m, t); }
  }

  lemma {:induction false} UnknownOverExact<K(!new)>(pous: seq<Pou<K>>, t: K, u: Unknown)
    ensures var m := ByName(pous);
            u in UnknownOver(m, t, ReachableKeys(m, t)) <==> exists k :: Reached(pous, t, k) && u in UnknownAt(m, t, k)
  {
    var m := ByName(pous);
    if k :| Reached(pous, t, k) && u in UnknownAt(m, t, k) { assert k in ReachableKeys(m, t); }
  }

  /** What is not known about the calls. */
  ghost predicate CallsLeaveOpen<K(!new)>(pous: seq<Pou<K>>, t: K, u: Unknown) {
    || (u == RecursiveCall && ReachesCycle(CallGraph(ByName(pous)), t))
    || exists k :: Reached(pous, t, k) && LeavesOpen(pous, ByName(pous)[k], k == t, u)
  }

  /** Something is unknown exactly when the ABI, a missing model or target, a POU that the calls reach, or recursion
      leaves it open. */
  lemma {:induction false} UnknownExact<K(!new)>(abi: Abi<K>, model: Maybe<seq<Pou<K>>>, u: Unknown)
    ensures u in AllUnknown(abi, model)
       <==> || AbiLeavesOpen(abi, u)
            || (u == StgUnavailable && model.Absent?)
            || (u == TargetUnavailable && model.Given? && !Known(abi, model))
            || (Known(abi, model) && CallsLeaveOpen(model.value, abi.name.value, u))
  {
    AbiExact(abi, VarInOut, u);
    if model.Given? && abi.name.Given? {
      ByNameExact(model.value, abi.name.value);
      ReachedLeave(model.value, abi.name.value, u);
    }
  }

  lemma {:induction false} ReachedLeave<K(!new)>(pous: seq<Pou<K>>, t: K, u: Unknown)
    ensures var m := ByName(pous);
            u in UnknownOver(m, t, ReachableKeys(m, t)) <==> exists k :: Reached(pous, t, k) && LeavesOpen(pous, m[k], k == t, u)
  {
    var m := ByName(pous);
    UnknownOverExact(pous, t, u);
    forall k | k in m ensures u in UnknownAt(m, t, k) <==> LeavesOpen(pous, m[k], k == t, u) {
      LocalUnknownExact(pous, m[k], k == t, u);
    }
  }
}
