/** `resolve_effect_model` of compiler/stg/effects.py: the call-closure worklist. The extractor and
    the clock are parameters that may answer differently at every use. */
module EffectModel {
  import opened Wrappers
  import opened Graphs
  import opened CallModel
  import CycleEffects

  datatype Extraction<K> = Failed | Extracted(pous: seq<Pou<K>>)

  datatype Status = Complete | BudgetExhausted | Incomplete

  function Elements<T>(s: seq<T>): set<T> {
    set x | x in s
  }

  /** Names of the POUs, and names they call. */
  ghost function Known<K>(pous: seq<Pou<K>>): set<K> {
    if pous == [] then {} else Known(pous[..|pous| - 1]) + Names(pous[|pous| - 1])
  }

  ghost function Called<K>(pous: seq<Pou<K>>): set<K> {
    if pous == [] then {} else Called(pous[..|pous| - 1]) + Elements(Callees(pous[|pous| - 1].calls))
  }

  /** Both are unions over the list. */
  lemma {:induction false} UnionOfAll<K>(pous: seq<Pou<K>>, k: K)
    ensures k in Known(pous) <==> exists i :: 0 <= i < |pous| && k in Names(pous[i])
    ensures k in Called(pous) <==> exists i :: 0 <= i < |pous| && k in Callees(pous[i].calls)
  {
    if pous != [] {
      var front := pous[..|pous| - 1];
      UnionOfAll(front, k);
      assert forall i :: 0 <= i < |front| ==> front[i] == pous[i];
    }
  }

  method KnownNames<K(==)>(pous: seq<Pou<K>>) returns (known: set<K>)
    ensures known == Known(pous)
  {
    known := {};
    for i := 0 to |pous|
      invariant known == Known(pous[..i])
    {
      assert pous[..i + 1][..i] == pous[..i];
      known := known + Names(pous[i]);
    }
    assert pous[..|pous|] == pous;
  }

  method CalledNames<K(==)>(pous: seq<Pou<K>>) returns (called: set<K>)
    ensures called == Called(pous)
  {
    called := {};
    for i := 0 to |pous|
      invariant called == Called(pous[..i])
    {
      assert pous[..i + 1][..i] == pous[..i];
      called := called + Elements(Callees(pous[i].calls));
    }
    assert pous[..|pous|] == pous;
  }

  /** The elements of a set in some order; nothing below depends on which. */
  method Listed<K(==)>(s: set<K>) returns (q: seq<K>)
    ensures Distinct(q) && Elements(q) == s
  {
    q := [];
    var rest := s;
    while rest != {}
      invariant Distinct(q) && Elements(q) + rest == s && Elements(q) !! rest
      decreases rest
    {
      var x :| x in rest;
      assert x !in Elements(q);
      q, rest := q + [x], rest - {x};
    }
  }

  // ----- which extracted POUs join

  ghost predicate Increasing(from: seq<nat>, n: nat) {
    && (forall j :: 0 <= j < |from| ==> from[j] < n)
    && (forall i, j :: 0 <= i < j < |from| ==> from[i] < from[j])
  }

  function Picked<K>(extracted: seq<Pou<K>>, from: seq<nat>): seq<Pou<K>>
    requires forall j :: 0 <= j < |from| ==> from[j] < |extracted|
  {
    seq(|from|, j requires 0 <= j < |from| => extracted[from[j]])
  }

  /** It has a name, and shares none with the POUs before or with those that joined before it. */
  ghost predicate New<K>(pous: seq<Pou<K>>, extracted: seq<Pou<K>>, from: seq<nat>, i: nat)
    requires i < |extracted| && forall j :: 0 <= j < |from| ==> from[j] < |extracted|
  {
    var names := Names(extracted[i]);
    && names != {} && names !! Known(pous)
    && forall j :: 0 <= j < |from| && from[j] < i ==> names !! Names(extracted[from[j]])
  }

  /** Of the first n extracted POUs exactly the new ones have joined, in order. */
  ghost predicate Joins<K>(pous: seq<Pou<K>>, extracted: seq<Pou<K>>, n: nat, from: seq<nat>, pous': seq<Pou<K>>) {
    && n <= |extracted| && Increasing(from, n)
    && pous' == pous + Picked(extracted, from)
    && forall i :: 0 <= i < n ==> (i in from <==> New(pous, extracted, from, i))
  }

  lemma {:induction false} KnownConcat<K>(a: seq<Pou<K>>, b: seq<Pou<K>>)
    ensures Known(a + b) == Known(a) + Known(b)
  {
    if b == [] {
      assert a + b == a;
    } else {
      assert (a + b)[..|a + b| - 1] == a + b[..|b| - 1];
      KnownConcat(a, b[..|b| - 1]);
    }
  }

  /** A POU is new exactly when it has a name and shares none with the list so far. */
  lemma {:induction false} NewIsApart<K>(pous: seq<Pou<K>>, extracted: seq<Pou<K>>, n: nat, from: seq<nat>, pous': seq<Pou<K>>)
    requires n < |extracted| && Joins(pous, extracted, n, from, pous')
    ensures New(pous, extracted, from, n) <==> Names(extracted[n]) != {} && Names(extracted[n]) !! Known(pous')
  {
    var names, picked := Names(extracted[n]), Picked(extracted, from);
    KnownConcat(pous, picked);
    forall j | 0 <= j < |from| ensures Names(extracted[from[j]]) <= Known(picked) {
      forall k | k in Names(extracted[from[j]]) ensures k in Known(picked) {
        assert picked[j] == extracted[from[j]];
        UnionOfAll(picked, k);
      }
    }
    if New(pous, extracted, from, n) {
      forall k | k in names ensures k !in Known(picked) {
        UnionOfAll(picked, k);
      }
    }
  }

  lemma {:induction false} JoinNew<K>(pous: seq<Pou<K>>, extracted: seq<Pou<K>>, n: nat, from: seq<nat>, pous': seq<Pou<K>>)
    requires n < |extracted| && Joins(pous, extracted, n, from, pous') && New(pous, extracted, from, n)
    ensures Joins(pous, extracted, n + 1, from + [n], pous' + [extracted[n]])
  {
    var more := from + [n];
    forall i | 0 <= i < n + 1 ensures i in more <==> New(pous, extracted, more, i) {
      NewEarlier(pous, extracted, from, n, i);
      assert more[|from|] == n;
      assert i in more <==> i in from || i == n;
    }
    assert Picked(extracted, more) == Picked(extracted, from) + [extracted[n]];
  }

  lemma {:induction false} JoinOld<K>(pous: seq<Pou<K>>, extracted: seq<Pou<K>>, n: nat, from: seq<nat>, pous': seq<Pou<K>>)
    requires n < |extracted| && Joins(pous, extracted, n, from, pous') && !New(pous, extracted, from, n)
    ensures Joins(pous, extracted, n + 1, from, pous')
  {
    assert n !in from;
  }

  lemma {:induction false} NewEarlier<K>(pous: seq<Pou<K>>, extracted: seq<Pou<K>>, from: seq<nat>, n: nat, i: nat)
    requires i <= n < |extracted| && forall j :: 0 <= j < |from| ==> from[j] < |extracted|
    ensures New(pous, extracted, from + [n], i) <==> New(pous, extracted, from, i)
  {
    var more := from + [n];
    if New(pous, extracted, more, i) {
      forall j | 0 <= j < |from| && from[j] < i ensures Names(extracted[i]) !! Names(extracted[from[j]]) {
        assert more[j] == from[j];
      }
    }
  }

  /** Adding the POUs whose names are all new. */
  method Adopt<K(==)>(pous: seq<Pou<K>>, known: set<K>, extracted: seq<Pou<K>>)
    returns (pous': seq<Pou<K>>, known': set<K>, ghost from: seq<nat>)
    requires known == Known(pous)
    ensures Joins(pous, extracted, |extracted|, from, pous') && known' == Known(pous')
  {
    pous', known', from := pous, known, [];
    for i := 0 to |extracted|
      invariant Joins(pous, extracted, i, from, pous') && known' == Known(pous')
    {
      var names := Names(extracted[i]);
      NewIsApart(pous, extracted, i, from, pous');
      if names != {} && names !! known' {
        assert (pous' + [extracted[i]])[..|pous'|] == pous';
        JoinNew(pous, extracted, i, from, pous');
        pous', from := pous' + [extracted[i]], from + [i];
        known' := known' + names;
      } else {
        JoinOld(pous, extracted, i, from, pous');
      }
    }
  }

  lemma {:induction false} JoinedApart<K>(pous: seq<Pou<K>>, extracted: seq<Pou<K>>, from: seq<nat>, pous': seq<Pou<K>>)
    requires Joins(pous, extracted, |extracted|, from, pous')
    ensures pous <= pous' && forall i :: |pous| <= i < |pous'| ==> pous'[i] in extracted && Names(pous'[i]) !! Known(pous)
  {
    forall i | |pous| <= i < |pous'| ensures pous'[i] in extracted && Names(pous'[i]) !! Known(pous) {
      var j := from[i - |pous|];
      assert j in from && pous'[i] == extracted[j];
      assert New(pous, extracted, from, j);
    }
  }

  /** Everything called under a known name is itself known. */
  ghost predicate Closed<K>(pous: seq<Pou<K>>) {
    Called(pous) <= Known(pous)
  }

  lemma {:induction false} DistinctCount<T>(s: seq<T>)
    requires Distinct(s)
    ensures |Elements(s)| == |s|
  {
    if s != [] {
      var front, last := s[..|s| - 1], s[|s| - 1];
      DistinctCount(front);
      assert s == front + [last] && last !in front;
      assert Elements(front + [last]) == Elements(front) + {last};
    }
  }

  lemma {:induction false} NamesGrow<K>(before: seq<Pou<K>>, after: seq<Pou<K>>)
    requires before <= after
    ensures Called(before) <= Called(after) && Known(before) <= Known(after)
    decreases |after|
  {
    if |before| < |after| {
      NamesGrow(before, after[..|after| - 1]);
    } else {
      assert before == after;
    }
  }

  /** Between rounds: the target's own POUs are untouched, and `log` lists the names handed to the
      extractor so far, each once, none of them known to the target. */
  ghost predicate Progress<K>(target: seq<Pou<K>>, pous: seq<Pou<K>>, log: seq<K>, attempted: set<K>, limit: nat) {
    && target <= pous && (forall i :: |target| <= i < |pous| ==> Names(pous[i]) !! Known(target))
    && Distinct(log) && Elements(log) == attempted && |log| == |attempted| <= limit
    && attempted <= Called(pous) && attempted !! Known(target)
  }

  /** Pending names are called, unknown to the target and not yet attempted. */
  ghost predicate Fresh<K>(target: seq<Pou<K>>, pous: seq<Pou<K>>, attempted: set<K>, pending: seq<K>) {
    && Distinct(pending) && Elements(pending) <= Called(pous)
    && Elements(pending) !! attempted && Elements(pending) !! Known(target)
  }

  lemma {:induction false} AttemptKeeps<K>(target: seq<Pou<K>>, pous: seq<Pou<K>>, log: seq<K>, attempted: set<K>, limit: nat,
                        pending: seq<K>, batch: seq<K>)
    requires Progress(target, pous, log, attempted, limit) && Fresh(target, pous, attempted, pending)
    requires batch <= pending && |log| + |batch| <= limit
    ensures Progress(target, pous, log + batch, attempted + Elements(batch), limit)
    ensures |attempted + Elements(batch)| == |attempted| + |batch|
  {
    forall x | x in batch ensures x in Elements(pending) {
      var i :| 0 <= i < |batch| && batch[i] == x;
      assert pending[i] == x;
    }
    forall i, j | 0 <= i < j < |log + batch| ensures (log + batch)[i] != (log + batch)[j] {
      if i < |log| <= j {
        assert log[i] in attempted && batch[j - |log|] in Elements(pending);
      }
    }
    DistinctCount(log + batch);
    assert Elements(log + batch) == attempted + Elements(batch);
  }

  lemma {:induction false} AdoptKeeps<K>(target: seq<Pou<K>>, pous: seq<Pou<K>>, pous': seq<Pou<K>>, log: seq<K>, attempted: set<K>,
                      limit: nat)
    requires Progress(target, pous, log, attempted, limit) && pous <= pous'
    requires forall i :: |pous| <= i < |pous'| ==> Names(pous'[i]) !! Known(pous)
    ensures Progress(target, pous', log, attempted, limit) && Known(target) <= Known(pous')
  {
    NamesGrow(target, pous);
    NamesGrow(pous, pous');
  }

  // ----- the rounds of the worklist

  /** The target, or a round more: the names handed out, and the model that the answer leads to. */
  datatype History<K> = Begin(target: seq<Pou<K>>) | Then(before: History<K>, batch: seq<K>, after: seq<Pou<K>>)

  function Rounds<K>(h: History<K>): nat {
    if h.Begin? then 0 else Rounds(h.before) + 1
  }

  function ModelOf<K>(h: History<K>): seq<Pou<K>> {
    if h.Begin? then h.target else h.after
  }

  function TargetOf<K>(h: History<K>): seq<Pou<K>> {
    if h.Begin? then h.target else TargetOf(h.before)
  }

  /** The names handed to the extractor. */
  ghost function Tried<K>(h: History<K>): set<K> {
    if h.Begin? then {} else Tried(h.before) + Elements(h.batch)
  }

  /** Called, unknown and not yet tried. */
  ghost function Open<K>(pous: seq<Pou<K>>, tried: set<K>): set<K> {
    Called(pous) - Known(pous) - tried
  }

  ghost predicate Answered<K(!new)>(pous: seq<Pou<K>>, x: Extraction<K>, pous': seq<Pou<K>>) {
    if x.Failed? then pous' == pous else exists from :: Joins(pous, x.pous, |x.pous|, from, pous')
  }

  /** A round hands out all the open names, or as many as the limit leaves. */
  ghost predicate HandsOut<K>(batch: seq<K>, open: set<K>, tried: set<K>, limit: nat) {
    && batch != [] && Distinct(batch) && Elements(batch) <= open
    && (Elements(batch) == open || |tried + Elements(batch)| == limit)
  }

  /** In every round the answer joins the model. */
  ghost predicate Ran<K(!new)>(h: History<K>, extract: (nat, seq<K>) -> Extraction<K>, limit: nat) {
    h.Then? ==>
      && Ran(h.before, extract, limit)
      && HandsOut(h.batch, Open(ModelOf(h.before), Tried(h.before)), Tried(h.before), limit)
      && Answered(ModelOf(h.before), extract(Rounds(h.before), h.batch), h.after)
  }

  ghost predicate AllExtracted<K>(h: History<K>, extract: (nat, seq<K>) -> Extraction<K>) {
    h.Then? ==> AllExtracted(h.before, extract) && extract(Rounds(h.before), h.batch).Extracted?
  }

  /** The extractor fails in the last round, or not at all. */
  ghost predicate Failures<K>(h: History<K>, extract: (nat, seq<K>) -> Extraction<K>, failed: bool) {
    if failed then h.Then? && AllExtracted(h.before, extract) && extract(Rounds(h.before), h.batch).Failed?
    else AllExtracted(h, extract)
  }

  ghost predicate NoneExpired(expired: nat -> bool, n: nat) {
    n == 0 || (NoneExpired(expired, n - 1) && !expired(n - 1))
  }

  /** Why the loop has ended: a failure, nothing left to try, the limit, or the clock, which had not expired
      before any of the rounds. */
  ghost predicate Ended(open: bool, expired: nat -> bool, rounds: nat, full: bool, failed: bool, readings: nat) {
    && NoneExpired(expired, rounds)
    && (readings == rounds || (readings == rounds + 1 && expired(rounds)))
    && (failed || !open || full || readings == rounds + 1)
  }

  // ----- what the extractor's answers lead to

  /** A POU of the target or of some answer. */
  ghost predicate Origin<K(!new)>(target: seq<Pou<K>>, extract: (nat, seq<K>) -> Extraction<K>, p: Pou<K>) {
    p in target || exists n: nat, batch :: extract(n, batch).Extracted? && p in extract(n, batch).pous
  }

  /** Two POUs have the same names or none in common. */
  ghost predicate Coherent<K(!new)>(target: seq<Pou<K>>, extract: (nat, seq<K>) -> Extraction<K>) {
    forall p, q :: Origin(target, extract, p) && Origin(target, extract, q) ==> Alike(p, q)
  }

  ghost predicate Alike<K>(p: Pou<K>, q: Pou<K>) {
    Names(p) == Names(q) || Names(p) !! Names(q)
  }

  /** Every answer names every name asked for. */
  ghost predicate Answering<K(!new)>(extract: (nat, seq<K>) -> Extraction<K>) {
    forall n: nat, batch :: extract(n, batch).Extracted? && Elements(batch) <= Known(extract(n, batch).pous)
  }

  ghost predicate AllOrigin<K(!new)>(target: seq<Pou<K>>, extract: (nat, seq<K>) -> Extraction<K>, pous: seq<Pou<K>>) {
    forall i :: 0 <= i < |pous| ==> Origin(target, extract, pous[i])
  }

  lemma {:induction false} NamesKnown<K>(pous: seq<Pou<K>>, i: nat)
    requires i < |pous|
    ensures Names(pous[i]) <= Known(pous)
  {
    forall k | k in Names(pous[i]) ensures k in Known(pous) {
      UnionOfAll(pous, k);
    }
  }

  /** Every extracted POU shares a name with the model that it leads to. */
  lemma {:induction false} JoinedShares<K>(pous: seq<Pou<K>>, extracted: seq<Pou<K>>, from: seq<nat>, pous': seq<Pou<K>>, i: nat)
    returns (j: nat)
    requires Joins(pous, extracted, |extracted|, from, pous') && i < |extracted| && Names(extracted[i]) != {}
    ensures j < |pous'| && !(Names(extracted[i]) !! Names(pous'[j]))
  {
    var names := Names(extracted[i]);
    if i in from {
      var x :| 0 <= x < |from| && from[x] == i;
      j := |pous| + x;
    } else if !(names !! Known(pous)) {
      var k :| k in names && k in Known(pous);
      UnionOfAll(pous, k);
      j :| 0 <= j < |pous| && k in Names(pous[j]);
    } else {
      var x :| 0 <= x < |from| && from[x] < i && !(names !! Names(extracted[from[x]]));
      j := |pous| + x;
    }
  }

  /** With coherent names everything that an answer names is known afterwards. */
  lemma {:induction false} AnswerKnown<K(!new)>(target: seq<Pou<K>>, extract: (nat, seq<K>) -> Extraction<K>, pous: seq<Pou<K>>,
                                                extracted: seq<Pou<K>>, pous': seq<Pou<K>>)
    requires Coherent(target, extract) && AllOrigin(target, extract, pous) && AllOrigin(target, extract, extracted)
    requires Answered(pous, Extracted(extracted), pous')
    ensures AllOrigin(target, extract, pous') && Known(pous) <= Known(pous') && Known(extracted) <= Known(pous')
  {
    var from :| Joins(pous, extracted, |extracted|, from, pous');
    KnownConcat(pous, Picked(extracted, from));
    JoinedOrigin(target, extract, pous, extracted, from, pous');
    forall k | k in Known(extracted) ensures k in Known(pous') {
      NameJoins(target, extract, pous, extracted, from, pous', k);
    }
  }

  lemma {:induction false} JoinedOrigin<K(!new)>(target: seq<Pou<K>>, extract: (nat, seq<K>) -> Extraction<K>, pous: seq<Pou<K>>,
                                                 extracted: seq<Pou<K>>, from: seq<nat>, pous': seq<Pou<K>>)
    requires AllOrigin(target, extract, pous) && AllOrigin(target, extract, extracted)
    requires Joins(pous, extracted, |extracted|, from, pous')
    ensures AllOrigin(target, extract, pous')
  {
    forall i | 0 <= i < |pous'| ensures Origin(target, extract, pous'[i]) {
      if i >= |pous| { assert pous'[i] == extracted[from[i - |pous|]]; }
    }
  }

  lemma {:induction false} NameJoins<K(!new)>(target: seq<Pou<K>>, extract: (nat, seq<K>) -> Extraction<K>, pous: seq<Pou<K>>,
                                              extracted: seq<Pou<K>>, from: seq<nat>, pous': seq<Pou<K>>, k: K)
    requires Coherent(target, extract) && AllOrigin(target, extract, extracted) && AllOrigin(target, extract, pous')
    requires Joins(pous, extracted, |extracted|, from, pous') && k in Known(extracted)
    ensures k in Known(pous')
  {
    UnionOfAll(extracted, k);
    var i :| 0 <= i < |extracted| && k in Names(extracted[i]);
    var j := JoinedShares(pous, extracted, from, pous', i);
    assert Alike(extracted[i], pous'[j]);
    NamesKnown(pous', j);
  }

  /** With coherent names and an extractor that answers every name, every name tried is known in the end. */
  lemma {:induction false} TriedKnown<K(!new)>(h: History<K>, extract: (nat, seq<K>) -> Extraction<K>, limit: nat, target: seq<Pou<K>>)
    requires Answering(extract) && Coherent(target, extract) && Ran(h, extract, limit) && TargetOf(h) == target
    ensures AllOrigin(target, extract, ModelOf(h)) && Tried(h) <= Known(ModelOf(h))
    decreases h
  {
    if h.Then? {
      TriedKnown(h.before, extract, limit, target);
      AnswerKnown(target, extract, ModelOf(h.before), extract(Rounds(h.before), h.batch).pous, h.after);
    }
  }

  lemma {:induction false} OnlyZero(from: seq<nat>)
    requires Increasing(from, 1) && from != []
    ensures 0 in from
  {
    var i := from[0];
    assert i in from;
  }

  lemma {:induction false} OneName<K>(p: Pou<K>)
    ensures Known([p]) == Names(p) && Called([p]) == Elements(Callees(p.calls))
  {
    assert [p][..0] == [];
    assert Known([p][..0]) == {} && Called([p][..0]) == {};
  }

  ghost predicate NeverExpired(expired: nat -> bool) {
    forall i :: !expired(i)
  }

  lemma {:induction false} NeverFailed<K(!new)>(h: History<K>, extract: (nat, seq<K>) -> Extraction<K>)
    requires Answering(extract)
    ensures AllExtracted(h, extract)
    decreases h
  {
    if h.Then? { NeverFailed(h.before, extract); }
  }

  /** A coherent extractor that answers every name does not fail and leaves nothing tried unknown. */
  lemma {:induction false} AnswersComplete<K(!new)>(h: History<K>, extract: (nat, seq<K>) -> Extraction<K>,
                                                    limit: nat, target: seq<Pou<K>>, failed: bool)
    requires Ran(h, extract, limit) && TargetOf(h) == target && Failures(h, extract, failed)
    ensures Answering(extract) && Coherent(target, extract) ==> Tried(h) <= Known(ModelOf(h)) && !failed
  {
    if Answering(extract) && Coherent(target, extract) {
      TriedKnown(h, extract, limit, target);
      NeverFailed(h, extract);
    }
  }

  /** Names that answer everything are not enough: an answer F that is also known under the name of its caller
      P does not join, and F stays unresolved. */
  lemma {:induction false} ClashStaysOpen<K(!new)>(p: K, f: K, caller: Pou<K>, answer: Pou<K>)
    requires p != f && Names(caller) == {p} && Callees(caller.calls) == [f] && Names(answer) == {f, p}
    ensures Joins([caller], [answer], 1, [], [caller]) && f in Known([answer])
    ensures forall from, pous :: Joins([caller], [answer], 1, from, pous) ==> f in Called(pous) - Known(pous)
  {
    OneName(caller);
    OneName(answer);
    assert [caller] + Picked([answer], []) == [caller];
    forall from, pous | Joins([caller], [answer], 1, from, pous) ensures pous == [caller] {
      assert !New([caller], [answer], from, 0);
      if from != [] { OnlyZero(from); }
    }
  }

  /** Whether the worklist was left with names to attempt: also after a failed extraction. */
  ghost predicate Unfinished<K>(pous: seq<Pou<K>>, attempted: set<K>, failed: bool) {
    failed || Called(pous) - Known(pous) - attempted != {}
  }

  /** `resolve_effect_model`. `readings` counts the clock readings of the loop; the status reads it once more. */
  method ResolveEffectModel<K(==, !new)>(target: seq<Pou<K>>, extract: (nat, seq<K>) -> Extraction<K>,
                                   expired: nat -> bool, maxCallees: int)
    returns (pous: seq<Pou<K>>, status: Status, attempted: set<K>, unresolved: set<K>, failed: bool,
             ghost log: seq<K>, ghost readings: nat, ghost history: History<K>)
    ensures Worked(target, extract, if maxCallees < 0 then 0 else maxCallees, history, log, pous, attempted, failed)
    ensures Ended(!(unresolved <= attempted), expired, Rounds(history), |attempted| >= maxCallees, failed, readings)
    ensures Answering(extract) && Coherent(target, extract)
            ==> attempted <= Known(pous) && (|attempted| < maxCallees && NeverExpired(expired) ==> status == Complete)
    ensures unresolved == Called(pous) - Known(pous)
    ensures status == Complete <==> Closed(pous) && !failed
    ensures status == BudgetExhausted
       <==> && !(Closed(pous) && !failed)
            && Unfinished(pous, attempted, failed)
            && (|attempted| >= maxCallees || expired(readings))
  {
    var known, pending, clock;
    var limit: nat := if maxCallees < 0 then 0 else maxCallees;
    pous, known, pending, attempted, failed, clock, log, history := Explore(target, extract, expired, limit);
    readings := clock;
    var called := CalledNames(pous);
    unresolved := called - known;
    PendingLeft(pous, known, attempted, failed, pending);
    AnswersComplete(history, extract, limit, target, failed);
    status := if unresolved == {} && !failed then Complete
              else if |pending| > 0 && (|attempted| >= maxCallees || expired(clock)) then BudgetExhausted
              else Incomplete;
  }

  lemma {:induction false} PendingLeft<K>(pous: seq<Pou<K>>, known: set<K>, attempted: set<K>, failed: bool, pending: seq<K>)
    requires known == Known(pous)
    requires if failed then pending != [] else Elements(pending) == Called(pous) - known - attempted
    ensures |pending| > 0 <==> Unfinished(pous, attempted, failed)
  {
    if !failed && pending != [] {
      assert pending[0] in Elements(pending);
    }
  }

  /** The slice `pending[:room]`. */
  function Batch<K>(pending: seq<K>, room: nat): (batch: seq<K>)
    ensures batch <= pending && |batch| <= room
    ensures batch == pending || |batch| == room
    ensures pending != [] && room > 0 ==> batch != []
  {
    if |pending| <= room then pending else pending[..room]
  }

  /** Where the worklist stands after some rounds. */
  ghost predicate Worked<K(!new)>(target: seq<Pou<K>>, extract: (nat, seq<K>) -> Extraction<K>, limit: nat,
                                  h: History<K>, log: seq<K>, pous: seq<Pou<K>>, attempted: set<K>, failed: bool)
  {
    && TargetOf(h) == target && ModelOf(h) == pous && Tried(h) == attempted
    && Ran(h, extract, limit) && Failures(h, extract, failed)
    && Progress(target, pous, log, attempted, limit)
  }

  ghost predicate Awaited<K>(target: seq<Pou<K>>, pous: seq<Pou<K>>, attempted: set<K>, pending: seq<K>) {
    Fresh(target, pous, attempted, pending) && Elements(pending) == Open(pous, attempted)
  }

  /** The worklist. Each reading of the clock has its own number. */
  method Explore<K(==, !new)>(target: seq<Pou<K>>, extract: (nat, seq<K>) -> Extraction<K>,
                              expired: nat -> bool, maxCallees: nat)
    returns (pous: seq<Pou<K>>, known: set<K>, pending: seq<K>, attempted: set<K>, failed: bool, readings: nat,
             ghost log: seq<K>, ghost history: History<K>)
    ensures Worked(target, extract, maxCallees, history, log, pous, attempted, failed) && known == Known(pous)
    ensures Ended(pending != [], expired, Rounds(history), |attempted| >= maxCallees, failed, readings)
    ensures if failed then pending != [] else Awaited(target, pous, attempted, pending)
  {
    pous, attempted, failed, log, history := target, {}, false, [], Begin(target);
    known, pending := Start(target);
    readings := 0;
    var late := false;
    while pending != [] && |attempted| < maxCallees && !failed && !late
      invariant Worked(target, extract, maxCallees, history, log, pous, attempted, failed) && known == Known(pous)
      invariant if failed then pending != [] else Awaited(target, pous, attempted, pending)
      invariant NoneExpired(expired, Rounds(history)) && readings == Rounds(history) + if late then 1 else 0
      invariant late ==> expired(Rounds(history))
      decreases maxCallees - |attempted|, !late
    {
      late := expired(readings);
      readings := readings + 1;
      if !late {
        pous, known, pending, attempted, failed, log, history :=
          Round(target, extract, maxCallees, readings - 1, pous, known, pending, attempted, log, history);
      }
    }
  }

  /** One round: a batch is handed to the extractor, and its answer joins the model. */
  method Round<K(==, !new)>(ghost target: seq<Pou<K>>, extract: (nat, seq<K>) -> Extraction<K>, maxCallees: nat, batches: nat,
                            pous: seq<Pou<K>>, known: set<K>, pending: seq<K>, attempted: set<K>,
                            ghost log: seq<K>, ghost history: History<K>)
    returns (pous': seq<Pou<K>>, known': set<K>, pending': seq<K>, attempted': set<K>, failed: bool,
             ghost log': seq<K>, ghost history': History<K>)
    requires Worked(target, extract, maxCallees, history, log, pous, attempted, false) && batches == Rounds(history)
    requires known == Known(pous) && Awaited(target, pous, attempted, pending) && pending != [] && |attempted| < maxCallees
    ensures Worked(target, extract, maxCallees, history', log', pous', attempted', failed)
    ensures Rounds(history') == batches + 1 && |attempted| < |attempted'| && known' == Known(pous')
    ensures if failed then pending' != [] else Awaited(target, pous', attempted', pending')
  {
    var batch := Batch(pending, maxCallees - |attempted|);
    AttemptKeeps(target, pous, log, attempted, maxCallees, pending, batch);
    BatchOpens(pending, batch);
    attempted', log' := attempted + Elements(batch), log + batch;
    var extracted := extract(batches, batch);
    failed := extracted.Failed?;
    pous', known', pending' := pous, known, pending;
    if !failed {
      pous', known', pending' := NextRound(target, pous, known, extracted.pous, attempted', log', maxCallees);
    }
    history' := Then(history, batch, pous');
  }

  lemma {:induction false} BatchOpens<K>(pending: seq<K>, batch: seq<K>)
    requires Distinct(pending) && batch <= pending
    ensures Distinct(batch) && Elements(batch) <= Elements(pending)
  {
    forall x | x in batch ensures x in Elements(pending) {
      var i :| 0 <= i < |batch| && batch[i] == x;
      assert pending[i] == x;
    }
  }

  method Start<K(==)>(target: seq<Pou<K>>) returns (known: set<K>, pending: seq<K>)
    ensures known == Known(target) && Fresh(target, target, {}, pending)
    ensures Elements(pending) == Called(target) - known
  {
    known := KnownNames(target);
    var called := CalledNames(target);
    pending := Listed(called - known);
  }

  /** The end of a round: adopt what was extracted and list what is still called but unknown. */
  method NextRound<K(==, !new)>(ghost target: seq<Pou<K>>, pous: seq<Pou<K>>, known: set<K>, extracted: seq<Pou<K>>,
                          attempted: set<K>, ghost log: seq<K>, ghost limit: nat)
    returns (pous': seq<Pou<K>>, known': set<K>, pending: seq<K>)
    requires Progress(target, pous, log, attempted, limit) && known == Known(pous)
    ensures Progress(target, pous', log, attempted, limit) && known' == Known(pous')
    ensures Fresh(target, pous', attempted, pending) && Answered(pous, Extracted(extracted), pous')
    ensures Elements(pending) == Open(pous', attempted)
  {
    ghost var from;
    pous', known', from := Adopt(pous, known, extracted);
    JoinedApart(pous, extracted, from, pous');
    AdoptKeeps(target, pous, pous', log, attempted, limit);
    var called := CalledNames(pous');
    pending := Listed(called - known' - attempted);
  }

  // ----- what completeness gives to the effect walk

  lemma {:induction false} ByNameKeys<K(!new)>(pous: seq<Pou<K>>)
    ensures ByName(pous).Keys == Known(pous)
    ensures forall k :: k in ByName(pous) ==> ByName(pous)[k] in pous && k in Names(ByName(pous)[k])
  {
    if pous != [] {
      var front, last := pous[..|pous| - 1], pous[|pous| - 1];
      ByNameKeys(front);
    }
  }

  /** Extraction never changes which POU a name of the target model means. */
  lemma {:induction false} TargetsUnchanged<K(!new)>(target: seq<Pou<K>>, pous: seq<Pou<K>>, k: K)
    requires target <= pous && k in ByName(target)
    requires forall i :: |target| <= i < |pous| ==> Names(pous[i]) !! Known(target)
    ensures k in ByName(pous) && ByName(pous)[k] == ByName(target)[k]
    decreases |pous|
  {
    ByNameKeys(target);
    if |pous| == |target| {
      assert pous == target;
    } else {
      TargetsUnchanged(target, pous[..|pous| - 1], k);
    }
  }

  /** On a closed model whose callees are all named, every non-external call of every known POU is
      resolved: the effect walk never meets a missing callee. */
  lemma {:induction false} ClosedResolves<K(!new)>(pous: seq<Pou<K>>, k: K, i: nat)
    requires Closed(pous) && k in ByName(pous) && i < |ByName(pous)[k].calls|
    requires !ByName(pous)[k].calls[i].external && ByName(pous)[k].calls[i].callee.Given?
    ensures CycleEffects.ResolvedCall(ByName(pous), ByName(pous)[k].calls[i])
  {
    ByNameKeys(pous);
    var p := ByName(pous)[k];
    CalleesExact(p.calls, p.calls[i].callee.value);
    UnionOfAll(pous, p.calls[i].callee.value);
  }

  /** So a complete model leaves `callee_effects_unavailable` and `callee_write_targets_unresolved`
      to external calls alone. */
  lemma {:induction false} CompleteLeavesExternalOnly<K(!new)>(pous: seq<Pou<K>>, t: K, k: K)
    requires Closed(pous) && k in ByName(pous)
    requires forall i :: 0 <= i < |ByName(pous)[k].calls| ==> ByName(pous)[k].calls[i].callee.Given?
    ensures CycleEffects.CalleeWriteTargets !in CycleEffects.UnknownAt(ByName(pous), t, k)
    ensures CycleEffects.CalleeUnavailable in CycleEffects.UnknownAt(ByName(pous), t, k)
       <==> exists i :: 0 <= i < |ByName(pous)[k].calls| && ByName(pous)[k].calls[i].external
  {
    var m := ByName(pous);
    var cs := m[k].calls;
    forall i | 0 <= i < |cs| && !cs[i].external ensures CycleEffects.ResolvedCall(m, cs[i]) {
      ClosedResolves(pous, k, i);
    }
    ExternalOnly(m, cs);
    SymbolsSaySo(m[k].symbols, k == t);
  }

  lemma {:induction false} ExternalOnly<K(!new)>(m: map<K, Pou<K>>, cs: seq<Call<K>>)
    requires forall i :: 0 <= i < |cs| && !cs[i].external ==> CycleEffects.ResolvedCall(m, cs[i])
    ensures CycleEffects.CalleeWriteTargets !in CycleEffects.CallsUnknown(m, cs)
    ensures CycleEffects.CalleeUnavailable in CycleEffects.CallsUnknown(m, cs)
       <==> exists i :: 0 <= i < |cs| && cs[i].external
  {
    if cs != [] {
      var front := cs[..|cs| - 1];
      assert forall i :: 0 <= i < |front| ==> front[i] == cs[i];
      ExternalOnly(m, front);
      assert (exists i :: 0 <= i < |cs| && cs[i].external)
        <==> (exists i :: 0 <= i < |front| && front[i].external) || cs[|cs| - 1].external;
    }
  }

  lemma {:induction false} SymbolsSaySo(ss: seq<Symbol>, isTarget: bool)
    ensures CycleEffects.SymbolsUnknown(ss, isTarget) <= {CycleEffects.CalleeInOutAlias}
  {
    if ss != [] {
      SymbolsSaySo(ss[..|ss| - 1], isTarget);
    }
  }
}
