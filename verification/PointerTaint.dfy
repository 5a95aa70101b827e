/** `_platform_assumptions` of fuzzer/pipeline/probe_audit.py: the pointer-taint fixpoint. */
module PointerTaint {
  import opened Wrappers

  datatype Kind = Pointer | Integer | OtherKind

  /** A type record; widths that are missing are 0. */
  datatype Type = Type(kind: Kind, bits: nat, semanticBits: nat)

  const NO_TYPE := Type(OtherKind, 0, 0)

  datatype Source = Source(file: string, line: int)

  /** An assignment operation; `target` is absent when it has no target symbol. */
  datatype Assignment<S> = Assignment(target: Maybe<S>, uses: set<S>, source: Source)

  datatype Assumption<S> = Assumption(source: Source, pointerBits: nat, integerBits: nat, target: S)

  function TypeOf<S(==)>(symbols: map<S, Type>, s: S): Type {
    if s in symbols then symbols[s] else NO_TYPE
  }

  function Width(t: Type): nat {
    if t.semanticBits > 0 then t.semanticBits else t.bits
  }

  ghost function Pointers<S>(symbols: map<S, Type>): set<S> {
    set s | s in symbols && symbols[s].kind == Pointer
  }

  /** An assignment that carries taint out of `tainted`. */
  predicate Fires<S(==)>(a: Assignment<S>, tainted: set<S>) {
    a.target.Given? && a.uses * tainted != {}
  }

  /** `t` is closed under the assignments. */
  ghost predicate ClosedUnder<S>(ops: seq<Assignment<S>>, t: set<S>) {
    forall i :: 0 <= i < |ops| && Fires(ops[i], t) ==> ops[i].target.value in t
  }

  /** The least set that contains `seed` and is closed under the assignments. */
  ghost predicate LeastClosed<S(!new)>(ops: seq<Assignment<S>>, seed: set<S>, t: set<S>) {
    && seed <= t && ClosedUnder(ops, t)
    && forall u :: seed <= u && ClosedUnder(ops, u) ==> t <= u
  }

  predicate Narrows<S(==)>(symbols: map<S, Type>, pointerBits: nat, a: Assignment<S>) {
    a.target.Given? &&
    var t := TypeOf(symbols, a.target.value);
    t.kind == Integer && 0 < Width(t) < pointerBits
  }

  function Record<S(==)>(symbols: map<S, Type>, pointerBits: nat, a: Assignment<S>): Assumption<S>
    requires a.target.Given?
  {
    Assumption(a.source, pointerBits, Width(TypeOf(symbols, a.target.value)), a.target.value)
  }

  /** One pass with a fixed taint set: what should be reported once the set is known. */
  function OnePass<S(==)>(symbols: map<S, Type>, pointerBits: nat, ops: seq<Assignment<S>>, tainted: set<S>)
    : map<Source, Assumption<S>>
  {
    if ops == [] then map[]
    else
      var rest, a := OnePass(symbols, pointerBits, ops[..|ops| - 1], tainted), ops[|ops| - 1];
      if Fires(a, tainted) && Narrows(symbols, pointerBits, a) then rest[a.source := Record(symbols, pointerBits, a)]
      else rest
  }

  method PointerSymbols<S(==)>(symbols: map<S, Type>) returns (tainted: set<S>, width: nat)
    ensures tainted == Pointers(symbols)
    ensures forall s :: s in tainted ==> symbols[s].bits <= width
    ensures width == 0 || exists s :: s in tainted && symbols[s].bits == width
  {
    tainted, width := {}, 0;
    var rest := symbols.Keys;
    while rest != {}
      invariant rest <= symbols.Keys
      invariant tainted == set s | s in symbols && s !in rest && symbols[s].kind == Pointer
      invariant forall s :: s in tainted ==> symbols[s].bits <= width
      invariant width == 0 || exists s :: s in tainted && symbols[s].bits == width
      decreases rest
    {
      var s :| s in rest;
      rest := rest - {s};
      if symbols[s].kind == Pointer {
        tainted := tainted + {s};
        width := if symbols[s].bits > width then symbols[s].bits else width;
      }
    }
  }

  /** The keys a pass reports: those where some assignment carries taint into a narrow integer. */
  lemma {:induction false} OnePassKeys<S>(symbols: map<S, Type>, bits: nat, ops: seq<Assignment<S>>,
                                          tainted: set<S>, key: Source)
    ensures key in OnePass(symbols, bits, ops, tainted)
       <==> Reported(symbols, bits, ops, tainted, key)
  {
    if ops != [] {
      var front := ops[..|ops| - 1];
      OnePassKeys(symbols, bits, front, tainted, key);
      assert forall i :: 0 <= i < |front| ==> front[i] == ops[i];
    }
  }

  ghost function Targets<S>(ops: seq<Assignment<S>>): set<S> {
    if ops == [] then {}
    else
      var a := ops[|ops| - 1];
      Targets(ops[..|ops| - 1]) + if a.target.Given? then {a.target.value} else {}
  }

  lemma {:induction false} TargetsBound<S>(ops: seq<Assignment<S>>)
    ensures |Targets(ops)| <= |ops|
    ensures forall i :: 0 <= i < |ops| && ops[i].target.Given? ==> ops[i].target.value in Targets(ops)
  {
    if ops != [] {
      TargetsBound(ops[..|ops| - 1]);
    }
  }

  /** Reports so far come from assignments that fire under the current taint. */
  ghost predicate Justified<S>(symbols: map<S, Type>, bits: nat, ops: seq<Assignment<S>>, tainted: set<S>,
                               found: map<Source, Assumption<S>>)
  {
    forall key :: key in found ==> Reported(symbols, bits, ops, tainted, key)
  }

  ghost predicate Reported<S>(symbols: map<S, Type>, bits: nat, ops: seq<Assignment<S>>, tainted: set<S>, key: Source) {
    exists i :: 0 <= i < |ops| && ops[i].source == key && Fires(ops[i], tainted) && Narrows(symbols, bits, ops[i])
  }

  /** `tainted` is within every closed set above `seed`. */
  ghost predicate Needed<S(!new)>(ops: seq<Assignment<S>>, seed: set<S>, tainted: set<S>) {
    forall u :: seed <= u && ClosedUnder(ops, u) ==> tainted <= u
  }

  /** One round of the outer loop. */
  method Round<S(==, !new)>(symbols: map<S, Type>, bits: nat, ops: seq<Assignment<S>>, tainted: set<S>,
                            found: map<Source, Assumption<S>>, ghost seed: set<S>)
    returns (tainted': set<S>, found': map<Source, Assumption<S>>, changed: bool)
    requires Needed(ops, seed, tainted) && Justified(symbols, bits, ops, tainted, found)
    ensures tainted <= tainted' && tainted' - tainted <= Targets(ops)
    ensures Needed(ops, seed, tainted') && Justified(symbols, bits, ops, tainted', found')
    ensures changed <==> tainted' != tainted
    ensures !changed ==> ClosedUnder(ops, tainted) && found' == found + OnePass(symbols, bits, ops, tainted)
  {
    tainted', found', changed := tainted, found, false;
    for i := 0 to |ops|
      invariant tainted <= tainted' && tainted' - tainted <= Targets(ops)
      invariant Needed(ops, seed, tainted') && Justified(symbols, bits, ops, tainted', found')
      invariant changed <==> tainted' != tainted
      invariant !changed ==> ClosedUnder(ops[..i], tainted)
      invariant !changed ==> found' == found + OnePass(symbols, bits, ops[..i], tainted)
    {
      assert ops[..i + 1][..i] == ops[..i];
      var op := ops[i];
      if Fires(op, tainted') {
        TargetNeeded(ops, seed, tainted', i);
        if Narrows(symbols, bits, op) {
          assert Reported(symbols, bits, ops, tainted', op.source);
          found' := found'[op.source := Record(symbols, bits, op)];
        }
        if op.target.value !in tainted' {
          JustifiedGrows(symbols, bits, ops, tainted', tainted' + {op.target.value}, found');
          tainted' := tainted' + {op.target.value};
          changed := true;
        }
      }
    }
    assert ops[..|ops|] == ops;
  }

  lemma {:induction false} TargetNeeded<S(!new)>(ops: seq<Assignment<S>>, seed: set<S>, t: set<S>, i: nat)
    requires Needed(ops, seed, t) && i < |ops| && Fires(ops[i], t)
    ensures Needed(ops, seed, t + {ops[i].target.value}) && ops[i].target.value in Targets(ops)
  {
    TargetsBound(ops);
    forall u | seed <= u && ClosedUnder(ops, u) ensures ops[i].target.value in u {
      var x :| x in ops[i].uses * t;
      assert x in ops[i].uses * u;
    }
  }

  lemma {:induction false} JustifiedGrows<S>(symbols: map<S, Type>, bits: nat, ops: seq<Assignment<S>>, t: set<S>, t': set<S>,
                          found: map<Source, Assumption<S>>)
    requires Justified(symbols, bits, ops, t, found) && t <= t'
    ensures Justified(symbols, bits, ops, t', found)
  {
    forall key | key in found ensures Reported(symbols, bits, ops, t', key) {
      assert Reported(symbols, bits, ops, t, key);
      var i :| 0 <= i < |ops| && ops[i].source == key && Fires(ops[i], t) && Narrows(symbols, bits, ops[i]);
      var x :| x in ops[i].uses * t;
      assert x in ops[i].uses * t';
    }
  }

  lemma {:induction false} LastPassWins<S>(symbols: map<S, Type>, bits: nat, ops: seq<Assignment<S>>, t: set<S>,
                        found: map<Source, Assumption<S>>)
    requires Justified(symbols, bits, ops, t, found)
    ensures found + OnePass(symbols, bits, ops, t) == OnePass(symbols, bits, ops, t)
  {
    forall key | key in found ensures key in OnePass(symbols, bits, ops, t) {
      OnePassKeys(symbols, bits, ops, t, key);
    }
  }

  lemma {:induction false} FewerLeft<S>(targets: set<S>, t: set<S>, t': set<S>)
    requires t < t' && t' - t <= targets
    ensures |targets - t'| < |targets - t|
  {
    var x :| x in t' && x !in t;
    SubsetSize(targets - t', targets - t - {x});
  }

  lemma {:induction false} SubsetSize<S>(a: set<S>, b: set<S>)
    requires a <= b
    ensures |a| <= |b|
  {
    if a != {} {
      var x :| x in a;
      SubsetSize(a - {x}, b - {x});
    }
  }

  /** The loop of len(assignments) + 1 rounds always stops at the least closed set, and reports what
      one pass over that set reports. */
  method PlatformAssumptions<S(==, !new)>(symbols: map<S, Type>, ops: seq<Assignment<S>>)
    returns (found: map<Source, Assumption<S>>, tainted: set<S>, bits: nat)
    ensures bits == 0 ==> found == map[]
    ensures bits > 0 ==> LeastClosed(ops, Pointers(symbols), tainted)
    ensures bits > 0 ==> found == OnePass(symbols, bits, ops, tainted)
    ensures forall s :: s in Pointers(symbols) ==> symbols[s].bits <= bits
    ensures bits > 0 ==> exists s :: s in Pointers(symbols) && symbols[s].bits == bits
  {
    tainted, bits := PointerSymbols(symbols);
    found := map[];
    if bits == 0 {
      return;
    }
    ghost var seed := tainted;
    var round := 0;
    var changed := true;
    TargetsBound(ops);
    SubsetSize(Targets(ops) - tainted, Targets(ops));
    while round < |ops| + 1
      invariant round <= |ops| + 1 && seed <= tainted && changed
      invariant Needed(ops, seed, tainted) && Justified(symbols, bits, ops, tainted, found)
      invariant |Targets(ops) - tainted| + round <= |ops|
    {
      ghost var before, had := tainted, found;
      tainted, found, changed := Round(symbols, bits, ops, tainted, found, seed);
      if !changed {
        LastPassWins(symbols, bits, ops, tainted, had);
        break;
      }
      FewerLeft(Targets(ops), before, tainted);
      round := round + 1;
    }
  }

  /** The last of the first n assignments at the key that is reported. */
  ghost predicate LastReported<S>(symbols: map<S, Type>, bits: nat, ops: seq<Assignment<S>>, t: set<S>, key: Source, i: nat) {
    && i < |ops| && ops[i].source == key && Fires(ops[i], t) && Narrows(symbols, bits, ops[i])
    && forall j :: i < j < |ops| && ops[j].source == key ==> !(Fires(ops[j], t) && Narrows(symbols, bits, ops[j]))
  }

  /** The width that counts: the semantic one if there is one. */
  predicate IsWidth(t: Type, w: nat) {
    if t.semanticBits > 0 then w == t.semanticBits else w == t.bits
  }

  /** A key has the record of the last assignment there, with both widths and the symbol assigned. */
  lemma {:induction false} RecordedExactly<S>(symbols: map<S, Type>, bits: nat, ops: seq<Assignment<S>>, t: set<S>, key: Source, i: nat)
    requires LastReported(symbols, bits, ops, t, key, i)
    ensures var target := ops[i].target.value;
            && target in symbols && symbols[target].kind == Integer
            && key in OnePass(symbols, bits, ops, t)
            && var r := OnePass(symbols, bits, ops, t)[key];
               && r.source == key && r.pointerBits == bits && r.target == target
               && IsWidth(symbols[target], r.integerBits) && 0 < r.integerBits < bits
  {
    if i < |ops| - 1 {
      assert LastReported(symbols, bits, ops[..|ops| - 1], t, key, i);
      RecordedExactly(symbols, bits, ops[..|ops| - 1], t, key, i);
    }
  }

  /** The symbol is declared as an integer narrower than a pointer. */
  ghost predicate NarrowInteger<S>(symbols: map<S, Type>, s: S, bits: nat) {
    s in symbols && symbols[s].kind == Integer && exists w: nat :: IsWidth(symbols[s], w) && 0 < w < bits
  }

  lemma {:induction false} NarrowsExactly<S>(symbols: map<S, Type>, bits: nat, a: Assignment<S>)
    ensures Narrows(symbols, bits, a) <==> a.target.Given? && NarrowInteger(symbols, a.target.value, bits)
  {
    if a.target.Given? && a.target.value in symbols {
      assert IsWidth(symbols[a.target.value], Width(symbols[a.target.value]));
    }
  }

  /** A key is reported exactly when an assignment there carries a tainted symbol into an integer
      narrower than a pointer. */
  lemma {:induction false} ReportedExactly<S(!new)>(symbols: map<S, Type>, ops: seq<Assignment<S>>, bits: nat, t: set<S>, key: Source)
    requires LeastClosed(ops, Pointers(symbols), t)
    ensures key in OnePass(symbols, bits, ops, t)
       <==> exists i :: 0 <= i < |ops| && ops[i].source == key && ops[i].target.Given? && NarrowInteger(symbols, ops[i].target.value, bits)
                     && exists s :: s in ops[i].uses && s in t
  {
    OnePassKeys(symbols, bits, ops, t, key);
    forall i | 0 <= i < |ops|
      ensures Narrows(symbols, bits, ops[i]) <==> ops[i].target.Given? && NarrowInteger(symbols, ops[i].target.value, bits)
    {
      NarrowsExactly(symbols, bits, ops[i]);
    }
    forall i | 0 <= i < |ops| && ops[i].target.Given?
      ensures Fires(ops[i], t) <==> exists s :: s in ops[i].uses && s in t
    {
      if s :| s in ops[i].uses && s in t {
        assert s in ops[i].uses * t;
      }
    }
  }

  /** Taint is exactly reachability along assignments from a pointer. */
  ghost predicate Chain<S>(ops: seq<Assignment<S>>, seed: set<S>, c: seq<S>) {
    && |c| > 0 && c[0] in seed
    && forall k :: 0 < k < |c| ==> Carries(ops, c, k)
  }

  ghost predicate Carries<S>(ops: seq<Assignment<S>>, c: seq<S>, k: int)
    requires 0 < k < |c|
  {
    exists i :: 0 <= i < |ops| && ops[i].target == Given(c[k]) && c[k - 1] in ops[i].uses
  }

  ghost predicate Chained<S(!new)>(ops: seq<Assignment<S>>, seed: set<S>, s: S) {
    exists c :: Chain(ops, seed, c) && c[|c| - 1] == s
  }

  lemma {:induction false} TaintIsChained<S(!new)>(ops: seq<Assignment<S>>, seed: set<S>, t: set<S>, s: S)
    requires LeastClosed(ops, seed, t)
    ensures s in t <==> Chained(ops, seed, s)
  {
    if Chained(ops, seed, s) {
      var c :| Chain(ops, seed, c) && c[|c| - 1] == s;
      ChainStays(ops, seed, t, c, |c| - 1);
    }
    var u := set x | x in t && Chained(ops, seed, x);
    forall x | x in seed ensures x in u {
      assert Chain(ops, seed, [x]);
    }
    forall i | 0 <= i < |ops| && Fires(ops[i], u) ensures ops[i].target.value in u {
      var x :| x in ops[i].uses * u;
      assert x in ops[i].uses * t;
      var c :| Chain(ops, seed, c) && c[|c| - 1] == x;
      var d := c + [ops[i].target.value];
      forall k | 0 < k < |d| ensures Carries(ops, d, k) {
        if k < |c| {
          assert Carries(ops, c, k);
        }
      }
      assert Chain(ops, seed, d) && d[|d| - 1] == ops[i].target.value;
    }
    assert t <= u;
  }

  lemma {:induction false} ChainStays<S(!new)>(ops: seq<Assignment<S>>, seed: set<S>, t: set<S>, c: seq<S>, k: nat)
    requires Chain(ops, seed, c) && seed <= t && ClosedUnder(ops, t) && k < |c|
    ensures c[k] in t
  {
    if k > 0 {
      ChainStays(ops, seed, t, c, k - 1);
      assert Carries(ops, c, k);
      var i :| 0 <= i < |ops| && ops[i].target == Given(c[k]) && c[k - 1] in ops[i].uses;
      assert c[k - 1] in ops[i].uses * t;
    }
  }
}
