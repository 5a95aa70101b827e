/** The tick counter of the generated harness (compiler/harness/v3gen.py) over the activations of one scan:
    every scan ends or is aborted. */
module ScanBudget {
  import opened Arithmetic
  import opened Graphs
  import opened ControlFlow
  import opened LoopBudget

  datatype Scan = Running(ticks: nat) | Aborted

  /** `__semantist_loop_tick`. */
  function LoopTick(scan: Scan, limit: nat): Scan {
    match scan
    case Aborted => Aborted
    case Running(ticks) =>
      var next := (ticks + 1) % WORD;
      if next > limit then Aborted else Running(next)
  }

  function LoopTicks(scan: Scan, n: nat, limit: nat): Scan {
    if n == 0 then scan else LoopTick(LoopTicks(scan, n - 1, limit), limit)
  }

  /** Where the counter stands after t ticks in all, below the largest limit. */
  function Counted(t: nat, limit: nat): Scan {
    if t <= limit then Running(t) else Aborted
  }

  /** Below the largest limit the counter cannot wrap before it aborts. */
  lemma {:induction false} TicksCount(t: nat, n: nat, limit: nat)
    requires limit < WORD - 1
    ensures LoopTicks(Counted(t, limit), n, limit) == Counted(t + n, limit)
  {
    if n > 0 { TicksCount(t, n - 1, limit); }
  }

  // ----- one activation

  /** Ticks that one visit of each block executes. */
  ghost function TickMap(blocks: seq<Block>): map<string, nat> {
    map l | l in ByLabel(blocks) :: TicksOf(blocks, l)
  }

  /** The first n visits of a walk: each executes the ticks of its block, and then `more` ticks in the
      functions that the block calls. */
  function Run<L(==)>(ticks: map<L, nat>, w: seq<L>, more: seq<nat>, n: nat, scan: Scan, limit: nat): Scan
    requires n <= |w| == |more| && forall i :: 0 <= i < |w| ==> w[i] in ticks
  {
    if n == 0 then scan
    else LoopTicks(LoopTicks(Run(ticks, w, more, n - 1, scan, limit), ticks[w[n - 1]], limit), more[n - 1], limit)
  }

  function Total(more: seq<nat>, n: nat): nat
    requires n <= |more|
  {
    if n == 0 then 0 else Total(more, n - 1) + more[n - 1]
  }

  /** Ticks in the header blocks alone. */
  predicate TicksAt<L>(ticks: map<L, nat>, headers: set<L>) {
    forall l :: l in ticks ==> ticks[l] == if l in headers then 1 else 0
  }

  /** From any count, a run adds its header visits and the ticks of its calls, and aborts exactly when the
      sum passes the limit. */
  lemma {:induction false} RunCounts<L(!new)>(ticks: map<L, nat>, headers: set<L>, w: seq<L>, more: seq<nat>, n: nat,
                                              k: nat, limit: nat)
    requires TicksAt(ticks, headers) && limit < WORD - 1 && k <= limit
    requires n <= |w| == |more| && forall i :: 0 <= i < |w| ==> w[i] in ticks
    ensures Run(ticks, w, more, n, Running(k), limit) == Counted(k + Visits(w[..n], headers) + Total(more, n), limit)
  {
    if n > 0 {
      RunCounts(ticks, headers, w, more, n - 1, k, limit);
      assert w[..n][..n - 1] == w[..n - 1];
      var t := k + Visits(w[..n - 1], headers) + Total(more, n - 1);
      TicksCount(t, ticks[w[n - 1]], limit);
      TicksCount(t + ticks[w[n - 1]], more[n - 1], limit);
    }
  }

  /** A walk started at count k that is not aborted has at most (limit - k + 1) * n blocks, whatever its
      calls tick. */
  lemma {:induction false} BudgetedWalk<L(!new)>(g: Graph<L>, ticks: map<L, nat>, headers: set<L>, w: seq<L>, more: seq<nat>,
                                                 k: nat, limit: nat)
    requires CutsEveryCycle(g, headers) && Walk(g, w) && ticks.Keys == g.Keys && TicksAt(ticks, headers)
    requires |more| == |w| && k <= limit < WORD - 1
    ensures |w| <= Times(limit - k + 1, |g|) || Run(ticks, w, more, |w|, Running(k), limit) == Aborted
  {
    WalkBound(g, headers, w);
    RunCounts(ticks, headers, w, more, |w|, k, limit);
    assert w[..|w|] == w;
    if Visits(w, headers) <= limit - k {
      TimesMonotone(Visits(w, headers) + 1, limit - k + 1, |g|);
    }
  }

  /** An activation that starts at count k and visits the blocks w. */
  ghost function Activated(blocks: seq<Block>, w: seq<string>, more: seq<nat>, k: nat, limit: nat): Scan
    requires Walk(Cfg(blocks), w) && |more| == |w|
  {
    Run(TickMap(blocks), w, more, |w|, Running(k), limit)
  }

  /** Every activation of an instrumented function, started at any count, either stays within
      (limit - k + 1) * n block visits or has reached the tick abort. */
  lemma {:induction false} ActivationEndsOrAborts(body: seq<Line>, out: seq<Line>, count: nat, prefix: seq<Line>, blocks: seq<Block>,
                                                  w: seq<string>, more: seq<nat>, k: nat, limit: nat)
    requires FunctionInstrumented(body, out, count) && Clean(body) && ParsedAs(out, prefix, blocks)
    requires Walk(Cfg(blocks), w) && |more| == |w| && k <= limit < WORD - 1
    ensures |w| <= Times(limit - k + 1, |Cfg(blocks)|) || Activated(blocks, w, more, k, limit) == Aborted
  {
    InstrumentedParse(body, out, count, prefix, blocks);
    var headers :| TicksCutCycles(blocks, headers);
    TickedWalk(blocks, headers, w, more, k, limit);
  }

  lemma {:induction false} TickedWalk(blocks: seq<Block>, headers: set<string>, w: seq<string>, more: seq<nat>, k: nat, limit: nat)
    requires TicksCutCycles(blocks, headers) && Walk(Cfg(blocks), w) && |more| == |w| && k <= limit < WORD - 1
    ensures |w| <= Times(limit - k + 1, |Cfg(blocks)|) || Activated(blocks, w, more, k, limit) == Aborted
  {
    BudgetedWalk(Cfg(blocks), TickMap(blocks), headers, w, more, k, limit);
  }

  // ----- the largest limit

  lemma {:induction false} TicksNeverAbort(scan: Scan, n: nat)
    requires scan.Running?
    ensures LoopTicks(scan, n, WORD - 1).Running?
  {
    if n > 0 { TicksNeverAbort(scan, n - 1); }
  }

  /** With the largest 64-bit limit the test `ticks > limit` is never true and no run aborts. */
  lemma {:induction false} LargestLimitNeverAborts<L(!new)>(ticks: map<L, nat>, w: seq<L>, more: seq<nat>, n: nat, scan: Scan)
    requires scan.Running? && n <= |w| == |more| && forall i :: 0 <= i < |w| ==> w[i] in ticks
    ensures Run(ticks, w, more, n, scan, WORD - 1).Running?
  {
    if n > 0 {
      LargestLimitNeverAborts(ticks, w, more, n - 1, scan);
      var before := Run(ticks, w, more, n - 1, scan, WORD - 1);
      TicksNeverAbort(before, ticks[w[n - 1]]);
      TicksNeverAbort(LoopTicks(before, ticks[w[n - 1]], WORD - 1), more[n - 1]);
    }
  }

  ghost predicate BoundedOrAborted<L(!new)>(g: Graph<L>, ticks: map<L, nat>, w: seq<L>, more: seq<nat>, k: nat, limit: nat) {
    (Walk(g, w) && |more| == |w| && k <= limit && ticks.Keys == g.Keys)
    ==> |w| <= Times(limit - k + 1, |g|) || Run(ticks, w, more, |w|, Running(k), limit) == Aborted
  }

  /** Every walk from every count stays within the bound or is aborted. */
  ghost predicate Budgeted<L(!new)>(g: Graph<L>, ticks: map<L, nat>, limit: nat) {
    forall w, more, k: nat :: BoundedOrAborted(g, ticks, w, more, k, limit)
  }

  lemma {:induction false} AcyclicWalkIsShort<L(!new)>(g: Graph<L>, w: seq<L>, k: nat, limit: nat)
    requires Acyclic(g) && Walk(g, w) && k <= limit
    ensures |w| <= Times(limit - k + 1, |g|)
  {
    HeaderFreeIsShort(g, {}, w);
    assert Times(0, |g|) == 0;
    TimesMonotone(1, limit - k + 1, |g|);
  }

  /** Going round a cycle gives walks of any length. */
  lemma {:induction false} PumpedCycle<L(!new)>(g: Graph<L>, c: seq<L>, m: nat) returns (w: seq<L>)
    requires Cycle(g, c)
    ensures Walk(g, w) && |w| > m && w[|w| - 1] == c[0]
  {
    w := c;
    var i := 0;
    while i < m
      invariant i <= m && Walk(g, w) && |w| > i && w[|w| - 1] == c[0]
    {
      WalkJoin(g, w, c);
      w := w + c[1..];
      i := i + 1;
    }
  }

  /** The bound holds for all walks exactly below the largest limit, or without cycles. */
  lemma {:induction false} BudgetedExactly<L(!new)>(g: Graph<L>, ticks: map<L, nat>, headers: set<L>, limit: nat)
    requires CutsEveryCycle(g, headers) && ticks.Keys == g.Keys && TicksAt(ticks, headers) && limit < WORD
    ensures Budgeted(g, ticks, limit) <==> limit < WORD - 1 || Acyclic(g)
  {
    if limit < WORD - 1 || Acyclic(g) {
      forall w, more, k: nat
        ensures BoundedOrAborted(g, ticks, w, more, k, limit)
      {
        if Walk(g, w) && |more| == |w| && k <= limit {
          if Acyclic(g) {
            AcyclicWalkIsShort(g, w, k, limit);
          } else {
            BudgetedWalk(g, ticks, headers, w, more, k, limit);
          }
        }
      }
    } else {
      var c :| Cycle(g, c);
      var w := PumpedCycle(g, c, Times(WORD, |g|));
      var more := seq(|w|, i => 0);
      LargestLimitNeverAborts(ticks, w, more, |w|, Running(0));
      assert !BoundedOrAborted(g, ticks, w, more, 0, limit);
    }
  }

  // ----- a whole scan

  /** An activation of a routine: the blocks that it visits, each with the activations that it starts. */
  datatype Activation<F, L> = Activation(routine: F, visits: seq<Visit<F, L>>)

  datatype Visit<F, L> = Visit(block: L, calls: seq<Activation<F, L>>)

  /** The ticks of the blocks of each routine. */
  type TickTable<!F, !L> = (F, L) -> nat

  /** The first n visits of an activation: the ticks of a block come before its calls. */
  function RunVisits<F, L>(ticks: TickTable<F, L>, a: Activation<F, L>, n: nat, scan: Scan, limit: nat): Scan
    requires n <= |a.visits|
    decreases a, n
  {
    if n == 0 then scan
    else
      var v := a.visits[n - 1];
      var before := RunVisits(ticks, a, n - 1, scan, limit);
      RunCalls(ticks, v, |v.calls|, LoopTicks(before, ticks(a.routine, v.block), limit), limit)
  }

  function RunCalls<F, L>(ticks: TickTable<F, L>, v: Visit<F, L>, m: nat, scan: Scan, limit: nat): Scan
    requires m <= |v.calls|
    decreases v, m
  {
    if m == 0 then scan
    else
      var c := v.calls[m - 1];
      RunVisits(ticks, c, |c.visits|, RunCalls(ticks, v, m - 1, scan, limit), limit)
  }

  /** Ticks of the first n visits themselves, and of all that they call. */
  function OwnTicks<F, L>(ticks: TickTable<F, L>, a: Activation<F, L>, n: nat): nat
    requires n <= |a.visits|
  {
    if n == 0 then 0 else OwnTicks(ticks, a, n - 1) + ticks(a.routine, a.visits[n - 1].block)
  }

  function BelowTicks<F, L>(ticks: TickTable<F, L>, a: Activation<F, L>, n: nat): nat
    requires n <= |a.visits|
    decreases a, n
  {
    if n == 0 then 0
    else BelowTicks(ticks, a, n - 1) + CallTicks(ticks, a.visits[n - 1], |a.visits[n - 1].calls|)
  }

  function CallTicks<F, L>(ticks: TickTable<F, L>, v: Visit<F, L>, m: nat): nat
    requires m <= |v.calls|
    decreases v, m
  {
    if m == 0 then 0
    else
      var c := v.calls[m - 1];
      CallTicks(ticks, v, m - 1) + OwnTicks(ticks, c, |c.visits|) + BelowTicks(ticks, c, |c.visits|)
  }

  function TreeTicks<F, L>(ticks: TickTable<F, L>, a: Activation<F, L>): nat {
    OwnTicks(ticks, a, |a.visits|) + BelowTicks(ticks, a, |a.visits|)
  }

  /** Block visits below the first n visits. */
  function BelowSize<F, L>(a: Activation<F, L>, n: nat): nat
    requires n <= |a.visits|
    decreases a, n
  {
    if n == 0 then 0 else BelowSize(a, n - 1) + CallSize(a.visits[n - 1], |a.visits[n - 1].calls|)
  }

  function CallSize<F, L>(v: Visit<F, L>, m: nat): nat
    requires m <= |v.calls|
    decreases v, m
  {
    if m == 0 then 0
    else
      var c := v.calls[m - 1];
      CallSize(v, m - 1) + |c.visits| + BelowSize(c, |c.visits|)
  }

  /** All block visits of an activation and of the calls in it. */
  function TreeSize<F, L>(a: Activation<F, L>): nat {
    |a.visits| + BelowSize(a, |a.visits|)
  }

  /** The counter adds up the ticks of the whole tree. */
  lemma {:induction false} VisitsCount<F, L>(ticks: TickTable<F, L>, a: Activation<F, L>, n: nat, t: nat, limit: nat)
    requires n <= |a.visits| && limit < WORD - 1
    ensures RunVisits(ticks, a, n, Counted(t, limit), limit)
         == Counted(t + OwnTicks(ticks, a, n) + BelowTicks(ticks, a, n), limit)
    decreases a, n
  {
    if n > 0 {
      var v := a.visits[n - 1];
      VisitsCount(ticks, a, n - 1, t, limit);
      var before := t + OwnTicks(ticks, a, n - 1) + BelowTicks(ticks, a, n - 1);
      TicksCount(before, ticks(a.routine, v.block), limit);
      CallsCount(ticks, v, |v.calls|, before + ticks(a.routine, v.block), limit);
    }
  }

  lemma {:induction false} CallsCount<F, L>(ticks: TickTable<F, L>, v: Visit<F, L>, m: nat, t: nat, limit: nat)
    requires m <= |v.calls| && limit < WORD - 1
    ensures RunCalls(ticks, v, m, Counted(t, limit), limit) == Counted(t + CallTicks(ticks, v, m), limit)
    decreases v, m
  {
    if m > 0 {
      var c := v.calls[m - 1];
      CallsCount(ticks, v, m - 1, t, limit);
      VisitsCount(ticks, c, |c.visits|, t + CallTicks(ticks, v, m - 1), limit);
    }
  }

  /** An activation of depth d: at most n visits for each own tick (and one), at most `width` calls in each,
      of depth d - 1. */
  predicate Fits<F, L>(ticks: TickTable<F, L>, a: Activation<F, L>, n: nat, width: nat, d: nat)
    decreases a, 1
  {
    && |a.visits| <= Times(OwnTicks(ticks, a, |a.visits|) + 1, n)
    && forall i :: 0 <= i < |a.visits| ==> FitsVisit(ticks, a.visits[i], n, width, d)
  }

  predicate FitsVisit<F, L>(ticks: TickTable<F, L>, v: Visit<F, L>, n: nat, width: nat, d: nat)
    decreases v, 0
  {
    && |v.calls| <= width
    && (v.calls == [] || (d > 0 && forall j :: 0 <= j < |v.calls| ==> Fits(ticks, v.calls[j], n, width, d - 1)))
  }

  /** Block visits for each tick (and one more) of a tree of depth d. */
  function Cost(n: nat, width: nat, d: nat): nat {
    if d == 0 then n
    else
      var inner := Cost(n, width, d - 1);
      Times(n, 1 + Times(width, inner)) + inner
  }

  /** w visits of at most n blocks for each tick, each with `width` calls, and t ticks below them. */
  lemma {:induction false} CostAdds(w: nat, own: nat, below: nat, n: nat, width: nat, inner: nat)
    requires w <= Times(own + 1, n)
    ensures w + Times(below + Times(w, width), inner) <= Times(own + below + 1, Times(n, 1 + Times(width, inner)) + inner)
  {
    var each, t := 1 + Times(width, inner), own + below;
    TimesAdds(below, Times(w, width), inner);
    TimesAssociates(w, width, inner);
    TimesDistributes(w, 1, Times(width, inner));
    TimesIsProduct(w, 1);
    TimesMonotone(own + 1, t + 1, n);
    TimesMonotone(w, Times(t + 1, n), each);
    TimesAssociates(t + 1, n, each);
    TimesDistributes(t + 1, Times(n, each), inner);
    TimesMonotone(below, t + 1, inner);
  }

  lemma {:induction false} TreeBound<F, L>(ticks: TickTable<F, L>, a: Activation<F, L>, n: nat, width: nat, d: nat)
    requires Fits(ticks, a, n, width, d)
    ensures TreeSize(a) <= Times(TreeTicks(ticks, a) + 1, Cost(n, width, d))
    decreases a, |a.visits| + 1
  {
    var w := |a.visits|;
    if d == 0 {
      LeafSize(ticks, a, n, width, w);
      TimesMonotone(OwnTicks(ticks, a, w) + 1, TreeTicks(ticks, a) + 1, n);
    } else {
      BelowBound(ticks, a, w, n, width, d);
      CostAdds(w, OwnTicks(ticks, a, w), BelowTicks(ticks, a, w), n, width, Cost(n, width, d - 1));
    }
  }

  lemma {:induction false} LeafSize<F, L>(ticks: TickTable<F, L>, a: Activation<F, L>, n: nat, width: nat, i: nat)
    requires Fits(ticks, a, n, width, 0) && i <= |a.visits|
    ensures BelowSize(a, i) == 0
  {
    if i > 0 {
      LeafSize(ticks, a, n, width, i - 1);
      assert FitsVisit(ticks, a.visits[i - 1], n, width, 0);
    }
  }

  lemma {:induction false} BelowBound<F, L>(ticks: TickTable<F, L>, a: Activation<F, L>, i: nat, n: nat, width: nat, d: nat)
    requires Fits(ticks, a, n, width, d) && d > 0 && i <= |a.visits|
    ensures BelowSize(a, i) <= Times(BelowTicks(ticks, a, i) + Times(i, width), Cost(n, width, d - 1))
    decreases a, i
  {
    if i > 0 {
      var v, inner := a.visits[i - 1], Cost(n, width, d - 1);
      BelowBound(ticks, a, i - 1, n, width, d);
      assert FitsVisit(ticks, v, n, width, d);
      CallsBound(ticks, v, |v.calls|, n, width, d);
      TimesJoin(BelowSize(a, i - 1), BelowTicks(ticks, a, i - 1) + Times(i - 1, width), CallSize(v, |v.calls|),
                CallTicks(ticks, v, |v.calls|) + |v.calls|, BelowTicks(ticks, a, i) + Times(i, width), inner);
    }
  }

  lemma {:induction false} TimesJoin(x: nat, a: nat, y: nat, b: nat, total: nat, n: nat)
    requires x <= Times(a, n) && y <= Times(b, n) && a + b <= total
    ensures x + y <= Times(total, n)
  {
    TimesAdds(a, b, n);
    TimesMonotone(a + b, total, n);
  }

  lemma {:induction false} CallsBound<F, L>(ticks: TickTable<F, L>, v: Visit<F, L>, m: nat, n: nat, width: nat, d: nat)
    requires FitsVisit(ticks, v, n, width, d) && d > 0 && m <= |v.calls|
    ensures CallSize(v, m) <= Times(CallTicks(ticks, v, m) + m, Cost(n, width, d - 1))
    decreases v, m
  {
    if m > 0 {
      var c, inner := v.calls[m - 1], Cost(n, width, d - 1);
      CallsBound(ticks, v, m - 1, n, width, d);
      TreeBound(ticks, c, n, width, d - 1);
      TimesAdds(CallTicks(ticks, v, m - 1) + m - 1, TreeTicks(ticks, c) + 1, inner);
    }
  }

  /** A run from count k is aborted when the ticks of the tree pass the limit. */
  lemma {:induction false} AbortsPast<F, L>(ticks: TickTable<F, L>, a: Activation<F, L>, k: nat, limit: nat)
    requires k <= limit < WORD - 1
    ensures k + TreeTicks(ticks, a) <= limit || RunVisits(ticks, a, |a.visits|, Running(k), limit) == Aborted
  {
    VisitsCount(ticks, a, |a.visits|, k, limit);
  }

  lemma {:induction false} VisitsNeverAbort<F, L>(ticks: TickTable<F, L>, a: Activation<F, L>, n: nat, scan: Scan)
    requires n <= |a.visits| && scan.Running?
    ensures RunVisits(ticks, a, n, scan, WORD - 1).Running?
    decreases a, n
  {
    if n > 0 {
      var v := a.visits[n - 1];
      VisitsNeverAbort(ticks, a, n - 1, scan);
      var before := RunVisits(ticks, a, n - 1, scan, WORD - 1);
      TicksNeverAbort(before, ticks(a.routine, v.block));
      CallsNeverAbort(ticks, v, |v.calls|, LoopTicks(before, ticks(a.routine, v.block), WORD - 1));
    }
  }

  /** So no scan is aborted with the largest limit, whatever it calls. */
  lemma {:induction false} CallsNeverAbort<F, L>(ticks: TickTable<F, L>, v: Visit<F, L>, m: nat, scan: Scan)
    requires m <= |v.calls| && scan.Running?
    ensures RunCalls(ticks, v, m, scan, WORD - 1).Running?
    decreases v, m
  {
    if m > 0 {
      var c := v.calls[m - 1];
      CallsNeverAbort(ticks, v, m - 1, scan);
      VisitsNeverAbort(ticks, c, |c.visits|, RunCalls(ticks, v, m - 1, scan, WORD - 1));
    }
  }

  // ----- programs

  /** The routines with their block graphs and entry blocks, the ticks of each block, and the routines that it
      may call. */
  datatype Program<!F(==), !L> = Program(routines: seq<F>, graph: F -> Graph<L>, entry: F -> L, ticks: TickTable<F, L>,
                                         calls: (F, L) -> set<F>)

  /** The ticks of the routine stand in blocks that cut its cycles, and it has at most n blocks. */
  ghost predicate Instrumented<F(!new), L(!new)>(p: Program<F, L>, f: F, n: nat) {
    |p.graph(f)| <= n && exists headers :: Cut(p, f, headers)
  }

  ghost predicate Cut<F(!new), L(!new)>(p: Program<F, L>, f: F, headers: set<L>) {
    && CutsEveryCycle(p.graph(f), headers)
    && forall l :: l in p.graph(f) ==> p.ticks(f, l) == if l in headers then 1 else 0
  }

  ghost predicate AllInstrumented<F(!new), L(!new)>(p: Program<F, L>, n: nat) {
    FirstInstrumented(p, n, |p.routines|)
  }

  ghost predicate FirstInstrumented<F(!new), L(!new)>(p: Program<F, L>, n: nat, m: nat)
    requires m <= |p.routines|
  {
    m == 0 || (FirstInstrumented(p, n, m - 1) && Instrumented(p, p.routines[m - 1], n))
  }

  function Walked<F, L>(a: Activation<F, L>): seq<L> {
    seq(|a.visits|, i requires 0 <= i < |a.visits| => a.visits[i].block)
  }

  /** An activation walks the blocks of its routine from the entry, and a block starts at most `width`
      activations, of routines that it may call. */
  ghost predicate Legal<F(!new), L(!new)>(p: Program<F, L>, a: Activation<F, L>, width: nat)
    decreases a, 1
  {
    && a.routine in p.routines
    && Walk(p.graph(a.routine), Walked(a))
    && a.visits[0].block == p.entry(a.routine)
    && forall i :: 0 <= i < |a.visits| ==> LegalVisit(p, a.routine, a.visits[i], width)
  }

  ghost predicate LegalVisit<F(!new), L(!new)>(p: Program<F, L>, f: F, v: Visit<F, L>, width: nat)
    decreases v, 0
  {
    && |v.calls| <= width
    && forall j :: 0 <= j < |v.calls| ==> LegalCall(p, f, v, width, j)
  }

  ghost predicate LegalCall<F(!new), L(!new)>(p: Program<F, L>, f: F, v: Visit<F, L>, width: nat, j: nat)
    requires j < |v.calls|
    decreases v, -1, j
  {
    v.calls[j].routine in p.calls(f, v.block) && Legal(p, v.calls[j], width)
  }

  /** Header visits are the ticks of an activation itself. */
  lemma {:induction false} OwnIsVisits<F(!new), L(!new)>(p: Program<F, L>, a: Activation<F, L>, headers: set<L>, n: nat)
    requires Cut(p, a.routine, headers) && n <= |a.visits|
    requires forall i :: 0 <= i < |a.visits| ==> a.visits[i].block in p.graph(a.routine)
    ensures Visits(Walked(a)[..n], headers) == OwnTicks(p.ticks, a, n)
  {
    if n > 0 {
      OwnIsVisits(p, a, headers, n - 1);
      var w := Walked(a);
      assert w[..n][..n - 1] == w[..n - 1] && w[..n][n - 1] == a.visits[n - 1].block;
    }
  }

  lemma {:induction false} WalkedBound<F(!new), L(!new)>(p: Program<F, L>, a: Activation<F, L>, n: nat)
    requires Instrumented(p, a.routine, n) && Walk(p.graph(a.routine), Walked(a))
    ensures |a.visits| <= Times(OwnTicks(p.ticks, a, |a.visits|) + 1, n)
  {
    var g, w := p.graph(a.routine), Walked(a);
    var headers :| Cut(p, a.routine, headers);
    forall i | 0 <= i < |a.visits| ensures a.visits[i].block in g {
      assert w[i] in g;
    }
    OwnIsVisits(p, a, headers, |a.visits|);
    assert w[..|w|] == w;
    WalkBound(g, headers, w);
    TimesMonotoneRight(Visits(w, headers) + 1, |g|, n);
  }

  /** A rewritten function is instrumented in this sense. */
  lemma {:induction false} FunctionIsInstrumented<F(!new)>(p: Program<F, string>, f: F, body: seq<Line>, out: seq<Line>, count: nat,
                                                     prefix: seq<Line>, blocks: seq<Block>, n: nat)
    requires FunctionInstrumented(body, out, count) && Clean(body) && ParsedAs(out, prefix, blocks)
    requires p.graph(f) == Cfg(blocks) && |Cfg(blocks)| <= n && forall l :: l in ByLabel(blocks) ==> p.ticks(f, l) == TicksOf(blocks, l)
    ensures Instrumented(p, f, n)
  {
    InstrumentedParse(body, out, count, prefix, blocks);
    var headers :| TicksCutCycles(blocks, headers);
    assert Cut(p, f, headers);
  }

  // ----- calls without a tick

  /** A walk from the entry that executes no tick and ends in a block that may call h. */
  ghost predicate TicklessWalk<F, L>(p: Program<F, L>, f: F, h: F, w: seq<L>) {
    && Walk(p.graph(f), w)
    && w[0] == p.entry(f)
    && (forall i :: 0 <= i < |w| ==> p.ticks(f, w[i]) == 0)
    && h in p.calls(f, w[|w| - 1])
  }

  ghost predicate Tickless<F(!new), L(!new)>(p: Program<F, L>, f: F, h: F) {
    exists w :: TicklessWalk(p, f, h, w)
  }

  /** The routines, among the first n, that f can call before its first tick. */
  ghost function TicklessCallees<F(!new), L(!new)>(p: Program<F, L>, f: F, n: nat): seq<F>
    requires n <= |p.routines|
  {
    if n == 0 then []
    else TicklessCallees(p, f, n - 1) + if Tickless(p, f, p.routines[n - 1]) then [p.routines[n - 1]] else []
  }

  ghost function TicklessGraph<F(!new), L(!new)>(p: Program<F, L>): Graph<F> {
    map f | f in p.routines :: TicklessCallees(p, f, |p.routines|)
  }

  lemma {:induction false} TicklessListed<F(!new), L(!new)>(p: Program<F, L>, f: F, n: nat, i: nat)
    requires i < n <= |p.routines| && Tickless(p, f, p.routines[i])
    ensures p.routines[i] in TicklessCallees(p, f, n)
  {
    if i < n - 1 { TicklessListed(p, f, n - 1, i); }
  }

  lemma {:induction false} ListedTickless<F(!new), L(!new)>(p: Program<F, L>, f: F, h: F, n: nat)
    requires n <= |p.routines| && h in TicklessCallees(p, f, n)
    ensures Tickless(p, f, h)
  {
    if h in TicklessCallees(p, f, n - 1) { ListedTickless(p, f, h, n - 1); }
  }

  /** An edge is a call that can be reached without a tick. */
  lemma {:induction false} TicklessEdge<F(!new), L(!new)>(p: Program<F, L>, f: F, h: F)
    ensures Edge(TicklessGraph(p), f, h) <==> f in p.routines && h in p.routines && Tickless(p, f, h)
  {
    if f in p.routines && h in p.routines {
      if Tickless(p, f, h) {
        var i :| 0 <= i < |p.routines| && p.routines[i] == h;
        TicklessListed(p, f, |p.routines|, i);
      } else if h in TicklessCallees(p, f, |p.routines|) {
        ListedTickless(p, f, h, |p.routines|);
      }
    }
  }

  // ----- acyclic tickless calls bound every scan

  /** A rank of the routines, at most `top`, that falls along tickless calls. */
  ghost predicate Topped<F(!new), L(!new)>(p: Program<F, L>, rank: F -> nat, top: nat) {
    && (forall f, h :: Edge(TicklessGraph(p), f, h) ==> rank(h) < rank(f))
    && forall f :: rank(f) <= top
  }

  lemma {:induction false} IsInstrumented<F(!new), L(!new)>(p: Program<F, L>, f: F, n: nat)
    requires AllInstrumented(p, n) && f in p.routines
    ensures Instrumented(p, f, n)
  {
    var i :| 0 <= i < |p.routines| && p.routines[i] == f;
    FirstIsInstrumented(p, n, |p.routines|, i);
  }

  lemma {:induction false} FirstIsInstrumented<F(!new), L(!new)>(p: Program<F, L>, n: nat, m: nat, i: nat)
    requires i < m <= |p.routines| && FirstInstrumented(p, n, m)
    ensures Instrumented(p, p.routines[i], n)
  {
    if i < m - 1 { FirstIsInstrumented(p, n, m - 1, i); }
  }

  lemma {:induction false} OwnTicksGrow<F, L>(ticks: TickTable<F, L>, a: Activation<F, L>, i: nat, n: nat)
    requires i <= n <= |a.visits|
    ensures OwnTicks(ticks, a, i) <= OwnTicks(ticks, a, n) && BelowTicks(ticks, a, i) <= BelowTicks(ticks, a, n)
  {
    if i < n { OwnTicksGrow(ticks, a, i, n - 1); }
  }

  lemma {:induction false} CallTicksGrow<F, L>(ticks: TickTable<F, L>, v: Visit<F, L>, j: nat, m: nat)
    requires j < m <= |v.calls|
    ensures TreeTicks(ticks, v.calls[j]) <= CallTicks(ticks, v, m)
  {
    if j < m - 1 { CallTicksGrow(ticks, v, j, m - 1); }
  }

  /** The ticks of a call and those of its caller up to it are ticks of the caller's tree. */
  lemma {:induction false} CallWithin<F, L>(ticks: TickTable<F, L>, a: Activation<F, L>, i: nat, j: nat)
    requires i < |a.visits| && j < |a.visits[i].calls|
    ensures TreeTicks(ticks, a.visits[i].calls[j]) + OwnTicks(ticks, a, i + 1) <= TreeTicks(ticks, a)
  {
    CallTicksGrow(ticks, a.visits[i], j, |a.visits[i].calls|);
    OwnTicksGrow(ticks, a, i + 1, |a.visits|);
  }

  lemma {:induction false} NoOwnTicks<F, L>(ticks: TickTable<F, L>, a: Activation<F, L>, i: nat, n: nat)
    requires i < n <= |a.visits| && OwnTicks(ticks, a, n) == 0
    ensures ticks(a.routine, a.visits[i].block) == 0
  {
    if i < n - 1 { NoOwnTicks(ticks, a, i, n - 1); }
  }

  /** A call that its caller reaches without a tick is an edge. */
  lemma {:induction false} TicklessCall<F(!new), L(!new)>(p: Program<F, L>, a: Activation<F, L>, width: nat, i: nat, h: F)
    requires Legal(p, a, width) && i < |a.visits| && OwnTicks(p.ticks, a, i + 1) == 0
    requires h in p.routines && h in p.calls(a.routine, a.visits[i].block)
    ensures Edge(TicklessGraph(p), a.routine, h)
  {
    var w := Walked(a)[0..i + 1];
    WalkSlice(p.graph(a.routine), Walked(a), 0, i + 1);
    forall k | 0 <= k < |w| ensures p.ticks(a.routine, w[k]) == 0 {
      NoOwnTicks(p.ticks, a, k, i + 1);
    }
    assert TicklessWalk(p, a.routine, h, w);
    TicklessEdge(p, a.routine, h);
  }

  /** Depth for t ticks at most: each tick may start the ranks anew. */
  function Depth(t: nat, top: nat, r: nat): nat {
    Times(t, top + 1) + r
  }

  /** Behind a call there is less depth left: fewer ticks, or a smaller rank. */
  lemma {:induction false} DepthFalls(t: nat, u: nat, top: nat, r: nat, q: nat)
    requires q <= top && (u < t || (u == t && q < r))
    ensures Depth(u, top, q) < Depth(t, top, r)
  {
    if u < t {
      TimesMonotone(u + 1, t, top + 1);
    }
  }

  lemma {:induction false} RankFalls<F(!new), L(!new)>(p: Program<F, L>, rank: F -> nat, top: nat, f: F, h: F, t: nat, u: nat)
    requires Topped(p, rank, top) && (u < t || (u == t && Edge(TicklessGraph(p), f, h)))
    ensures Depth(u, top, rank(h)) < Depth(t, top, rank(f))
  {
    DepthFalls(t, u, top, rank(f), rank(h));
  }

  lemma {:induction false} LegalFits<F(!new), L(!new)>(p: Program<F, L>, rank: F -> nat, top: nat, a: Activation<F, L>,
                                                 n: nat, width: nat, t: nat, d: nat)
    requires AllInstrumented(p, n) && Topped(p, rank, top) && Legal(p, a, width)
    requires TreeTicks(p.ticks, a) <= t && Depth(t, top, rank(a.routine)) <= d
    ensures Fits(p.ticks, a, n, width, d)
    decreases a, 1, 0
  {
    IsInstrumented(p, a.routine, n);
    WalkedBound(p, a, n);
    forall i | 0 <= i < |a.visits| ensures FitsVisit(p.ticks, a.visits[i], n, width, d) {
      LegalVisitFits(p, rank, top, a, n, width, t, d, i);
    }
  }

  lemma {:induction false} LegalVisitFits<F(!new), L(!new)>(p: Program<F, L>, rank: F -> nat, top: nat, a: Activation<F, L>,
                                                            n: nat, width: nat, t: nat, d: nat, i: nat)
    requires AllInstrumented(p, n) && Topped(p, rank, top) && Legal(p, a, width) && i < |a.visits|
    requires TreeTicks(p.ticks, a) <= t && Depth(t, top, rank(a.routine)) <= d
    ensures FitsVisit(p.ticks, a.visits[i], n, width, d)
    decreases a, 0, 1
  {
    var v := a.visits[i];
    assert LegalVisit(p, a.routine, v, width);
    if v.calls != [] {
      LegalCallFits(p, rank, top, a, n, width, t, d, i, 0);
      forall j | 0 <= j < |v.calls| ensures Fits(p.ticks, v.calls[j], n, width, d - 1) {
        LegalCallFits(p, rank, top, a, n, width, t, d, i, j);
      }
    }
  }

  lemma {:induction false} LegalRoutine<F(!new), L(!new)>(p: Program<F, L>, a: Activation<F, L>, width: nat)
    requires Legal(p, a, width)
    ensures a.routine in p.routines
  {
  }

  /** A call has a tick before it, or is an edge. */
  lemma {:induction false} CallSpends<F(!new), L(!new)>(p: Program<F, L>, a: Activation<F, L>, width: nat, i: nat, j: nat)
    requires Legal(p, a, width) && i < |a.visits| && j < |a.visits[i].calls|
    ensures Legal(p, a.visits[i].calls[j], width)
    ensures TreeTicks(p.ticks, a.visits[i].calls[j]) <= TreeTicks(p.ticks, a)
    ensures TreeTicks(p.ticks, a.visits[i].calls[j]) < TreeTicks(p.ticks, a)
         || Edge(TicklessGraph(p), a.routine, a.visits[i].calls[j].routine)
  {
    var v := a.visits[i];
    assert LegalVisit(p, a.routine, v, width);
    assert LegalCall(p, a.routine, v, width, j);
    LegalRoutine(p, v.calls[j], width);
    CallWithin(p.ticks, a, i, j);
    if OwnTicks(p.ticks, a, i + 1) == 0 {
      TicklessCall(p, a, width, i, v.calls[j].routine);
    }
  }

  lemma {:induction false} LegalCallFits<F(!new), L(!new)>(p: Program<F, L>, rank: F -> nat, top: nat, a: Activation<F, L>,
                                                     n: nat, width: nat, t: nat, d: nat, i: nat, j: nat)
    requires AllInstrumented(p, n) && Topped(p, rank, top) && Legal(p, a, width)
    requires TreeTicks(p.ticks, a) <= t && Depth(t, top, rank(a.routine)) <= d
    requires i < |a.visits| && j < |a.visits[i].calls|
    ensures d > 0 && Fits(p.ticks, a.visits[i].calls[j], n, width, d - 1)
    decreases a, 0, 0
  {
    var c := a.visits[i].calls[j];
    CallSpends(p, a, width, i, j);
    var u := if TreeTicks(p.ticks, c) < TreeTicks(p.ticks, a) then t - 1 else t;
    RankFalls(p, rank, top, a.routine, c.routine, t, u);
    LegalFits(p, rank, top, c, n, width, u, d - 1);
  }

  /** The bound on a scan with `left` ticks to go, started in a routine of rank r. */
  function ScanBound(n: nat, width: nat, left: nat, top: nat, r: nat): nat {
    Times(left + 1, Cost(n, width, Depth(left, top, r)))
  }

  lemma {:induction false} SizeWithin<F(!new), L(!new)>(p: Program<F, L>, rank: F -> nat, top: nat, a: Activation<F, L>,
                                                        n: nat, width: nat, left: nat)
    requires AllInstrumented(p, n) && Topped(p, rank, top) && Legal(p, a, width) && TreeTicks(p.ticks, a) <= left
    ensures TreeSize(a) <= ScanBound(n, width, left, top, rank(a.routine))
  {
    var d := Depth(left, top, rank(a.routine));
    LegalFits(p, rank, top, a, n, width, left, d);
    TreeBound(p.ticks, a, n, width, d);
    TimesMonotone(TreeTicks(p.ticks, a) + 1, left + 1, Cost(n, width, d));
  }

  /** Every scan of instrumented routines whose tickless calls can be ranked either ends within a bound on all
      its block visits, calls included, or has reached the tick abort; from any count, as for a call in it. */
  lemma {:induction false} ScanEndsOrAborts<F(!new), L(!new)>(p: Program<F, L>, rank: F -> nat, top: nat, a: Activation<F, L>,
                                                        n: nat, width: nat, k: nat, limit: nat)
    requires AllInstrumented(p, n) && Topped(p, rank, top) && Legal(p, a, width) && k <= limit < WORD - 1
    ensures TreeSize(a) <= ScanBound(n, width, limit - k, top, rank(a.routine))
         || RunVisits(p.ticks, a, |a.visits|, Running(k), limit) == Aborted
  {
    AbortsPast(p.ticks, a, k, limit);
    if TreeTicks(p.ticks, a) <= limit - k {
      SizeWithin(p, rank, top, a, n, width, limit - k);
    }
  }

  // ----- and only they do

  /** Whether the activation, run from count k, keeps to the bound or is aborted. */
  ghost predicate KeepsBound<F(!new), L(!new)>(p: Program<F, L>, a: Activation<F, L>, width: nat, k: nat, limit: nat, bound: nat) {
    Legal(p, a, width) && k <= limit
    ==> TreeSize(a) <= bound || RunVisits(p.ticks, a, |a.visits|, Running(k), limit) == Aborted
  }

  /** One bound for all activations of the program's routines and all counts. */
  ghost predicate Bounded<F(!new), L(!new)>(p: Program<F, L>, width: nat, limit: nat) {
    exists bound :: BoundedBy(p, width, limit, bound)
  }

  ghost predicate BoundedBy<F(!new), L(!new)>(p: Program<F, L>, width: nat, limit: nat, bound: nat) {
    forall a, k: nat :: KeepsBound(p, a, width, k, limit, bound)
  }

  /** Visits along the blocks w: the last of them starts `calls`. */
  function VisitsAlong<F, L>(w: seq<L>, calls: seq<Activation<F, L>>): seq<Visit<F, L>> {
    seq(|w|, i requires 0 <= i < |w| => Visit(w[i], if i == |w| - 1 then calls else []))
  }

  /** What the visits along a tickless walk add up to. */
  lemma {:induction false} AlongCounts<F, L>(ticks: TickTable<F, L>, f: F, w: seq<L>, calls: seq<Activation<F, L>>, n: nat)
    requires n <= |w| && w != [] && forall i :: 0 <= i < |w| ==> ticks(f, w[i]) == 0
    ensures var a, v := Activation(f, VisitsAlong(w, calls)), Visit(w[|w| - 1], calls);
            && OwnTicks(ticks, a, n) == 0
            && BelowTicks(ticks, a, n) == (if n == |w| then CallTicks(ticks, v, |calls|) else 0)
            && BelowSize(a, n) == (if n == |w| then CallSize(v, |calls|) else 0)
  {
    if n > 0 {
      AlongCounts(ticks, f, w, calls, n - 1);
      var v := VisitsAlong(w, calls)[n - 1];
      assert n < |w| ==> CallTicks(ticks, v, 0) == 0 && CallSize(v, 0) == 0;
    }
  }

  /** An activation that walks to a call without a tick, and makes it. */
  lemma {:induction false} CallAlong<F(!new), L(!new)>(p: Program<F, L>, f: F, h: F, calls: seq<Activation<F, L>>, width: nat)
    returns (a: Activation<F, L>)
    requires Edge(TicklessGraph(p), f, h) && |calls| <= 1 <= width
    requires forall i :: 0 <= i < |calls| ==> calls[i].routine == h && Legal(p, calls[i], width) && TreeTicks(p.ticks, calls[i]) == 0
    ensures Legal(p, a, width) && a.routine == f && TreeTicks(p.ticks, a) == 0
    ensures TreeSize(a) >= 1 + if calls == [] then 0 else TreeSize(calls[0])
  {
    TicklessEdge(p, f, h);
    var w :| TicklessWalk(p, f, h, w);
    a := Activation(f, VisitsAlong(w, calls));
    assert Walked(a) == w;
    AlongCounts(p.ticks, f, w, calls, |w|);
    forall i | 0 <= i < |a.visits| ensures LegalVisit(p, f, a.visits[i], width) {
      forall j | 0 <= j < |a.visits[i].calls| ensures LegalCall(p, f, a.visits[i], width, j) {
        assert a.visits[i].calls[j] == calls[j];
      }
    }
    var v := Visit(w[|w| - 1], calls);
    if calls != [] {
      assert CallTicks(p.ticks, v, 0) == 0 && CallSize(v, 0) == 0;
    }
  }

  /** A walk of tickless calls, from its i-th routine on, as a chain of activations. */
  lemma {:induction false} TicklessChain<F(!new), L(!new)>(p: Program<F, L>, w: seq<F>, i: nat, width: nat) returns (a: Activation<F, L>)
    requires Walk(TicklessGraph(p), w) && i < |w| - 1 && width >= 1
    ensures Legal(p, a, width) && a.routine == w[i] && TreeTicks(p.ticks, a) == 0 && TreeSize(a) >= |w| - 1 - i
    decreases |w| - i
  {
    assert StepAt(TicklessGraph(p), w, i);
    if i == |w| - 2 {
      a := CallAlong(p, w[i], w[i + 1], [], width);
    } else {
      var c := TicklessChain(p, w, i + 1, width);
      a := CallAlong(p, w[i], w[i + 1], [c], width);
    }
  }

  /** Recursion without a tick visits any number of blocks, and the counter stays where it is. */
  lemma {:induction false} RecursionUnbounded<F(!new), L(!new)>(p: Program<F, L>, width: nat, m: nat, limit: nat) returns (a: Activation<F, L>)
    requires !Acyclic(TicklessGraph(p)) && width >= 1 && limit < WORD - 1
    ensures Legal(p, a, width) && TreeSize(a) > m
    ensures RunVisits(p.ticks, a, |a.visits|, Running(0), limit) == Running(0)
  {
    var c :| Cycle(TicklessGraph(p), c);
    var w := PumpedCycle(TicklessGraph(p), c, m + 1);
    a := TicklessChain(p, w, 0, width);
    VisitsCount(p.ticks, a, |a.visits|, 0, limit);
  }

  /** The ranks of an acyclic graph as a function with a greatest value. */
  lemma {:induction false} AcyclicTopped<F(!new), L(!new)>(p: Program<F, L>) returns (rank: F -> nat, top: nat)
    requires Acyclic(TicklessGraph(p))
    ensures Topped(p, rank, top)
  {
    var m := AcyclicHasRanks(TicklessGraph(p));
    top := GreatestRank(m);
    rank := f => if f in m then m[f] else 0;
  }

  lemma {:induction false} GreatestRank<F>(m: map<F, nat>) returns (top: nat)
    ensures forall f :: f in m ==> m[f] <= top
    decreases |m|
  {
    top := 0;
    if m != map[] {
      var f :| f in m;
      var rest := m - {f};
      assert |rest| == |m| - 1 by { assert rest.Keys == m.Keys - {f}; }
      top := GreatestRank(rest);
      top := if m[f] > top then m[f] else top;
      assert forall x :: x in m && x != f ==> x in rest && rest[x] == m[x];
    }
  }

  /** Below the largest limit, the scans of instrumented routines are bounded or aborted exactly when no routine
      can call itself, through any others, without a tick. */
  lemma {:induction false} ScanBoundedExactly<F(!new), L(!new)>(p: Program<F, L>, n: nat, width: nat, limit: nat)
    requires AllInstrumented(p, n) && width >= 1 && limit < WORD - 1
    ensures Bounded(p, width, limit) <==> Acyclic(TicklessGraph(p))
  {
    if Acyclic(TicklessGraph(p)) {
      var rank, top := AcyclicTopped(p);
      var bound := ScanBound(n, width, limit, top, top);
      forall a, k: nat ensures KeepsBound(p, a, width, k, limit, bound) {
        if Legal(p, a, width) && k <= limit {
          ScanEndsOrAborts(p, rank, top, a, n, width, k, limit);
          ScanBoundGrows(n, width, limit - k, limit, top, rank(a.routine));
        }
      }
      assert BoundedBy(p, width, limit, bound);
    } else {
      forall bound ensures !BoundedBy(p, width, limit, bound) {
        var a := RecursionUnbounded(p, width, bound, limit);
        assert !KeepsBound(p, a, width, 0, limit, bound);
      }
    }
  }

  lemma {:induction false} ScanBoundGrows(n: nat, width: nat, left: nat, limit: nat, top: nat, r: nat)
    requires left <= limit && r <= top
    ensures ScanBound(n, width, left, top, r) <= ScanBound(n, width, limit, top, top)
  {
    TimesMonotone(left, limit, top + 1);
    CostGrows(n, width, Depth(left, top, r), Depth(limit, top, top));
    TimesMonotoneRight(left + 1, Cost(n, width, Depth(left, top, r)), Cost(n, width, Depth(limit, top, top)));
    TimesMonotone(left + 1, limit + 1, Cost(n, width, Depth(limit, top, top)));
  }

  lemma {:induction false} CostGrows(n: nat, width: nat, d: nat, e: nat)
    requires d <= e
    ensures Cost(n, width, d) <= Cost(n, width, e)
  {
    if d < e { CostGrows(n, width, d, e - 1); }
  }
}
