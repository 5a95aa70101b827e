/** The records that `TestCase.canonical` of fuzzer/corpus/frames.py lists, and their order. */
module CanonicalOrder {
  import opened Wrappers
  import opened FrameCases

  function IndexOf<N(==)>(names: seq<N>, n: N): (i: nat)
    ensures i <= |names| && (i < |names| ==> names[i] == n)
    ensures n in names ==> i < |names|
  {
    if names == [] then 0 else if names[0] == n then 0 else 1 + IndexOf(names[1..], n)
  }

  predicate Distinct<N(==)>(names: seq<N>) {
    forall i, j :: 0 <= i < j < |names| ==> names[i] != names[j]
  }

  lemma {:induction false} IndexIs<N>(names: seq<N>, i: nat)
    requires Distinct(names) && i < |names|
    ensures IndexOf(names, names[i]) == i
  {
  }

  /** Shared records come first, then frame by frame the fields and delta_t behind them. */
  function Group<N, V>(r: Rec<N, V>): nat {
    if r.SharedRec? then 0 else r.cycle + 1
  }

  function Place<N(==), V>(s: Schema<N, V>, r: Rec<N, V>): nat {
    match r
    case SharedRec(n, _) => IndexOf(s.shared, n)
    case FieldRec(_, n, _) => IndexOf(s.fields, n)
    case DtRec(_, _) => |s.fields|
  }

  predicate Below<N(==), V>(s: Schema<N, V>, r: Rec<N, V>, group: nat, place: nat) {
    Group(r) < group || (Group(r) == group && Place(s, r) < place)
  }

  predicate AllBelow<N(==), V>(s: Schema<N, V>, rs: seq<Rec<N, V>>, group: nat, place: nat) {
    forall i :: 0 <= i < |rs| ==> Below(s, rs[i], group, place)
  }

  predicate InOrder<N(==), V>(s: Schema<N, V>, rs: seq<Rec<N, V>>) {
    forall i, j :: 0 <= i < j < |rs| ==> Below(s, rs[i], Group(rs[j]), Place(s, rs[j]))
  }

  /** What is listed: every shared value, every value of every frame, and every delta_t if asked for. */
  predicate Listed<N(==), V(==)>(s: Schema<N, V>, tc: TestCase<N, V>, withDt: bool, r: Rec<N, V>) {
    match r
    case SharedRec(n, v) => n in s.shared && n in tc.shared && tc.shared[n] == v
    case FieldRec(k, n, v) => k < |tc.frames| && n in s.fields && n in tc.frames[k].values && tc.frames[k].values[n] == v
    case DtRec(k, dt) => withDt && k < |tc.frames| && tc.frames[k].dt == Given(dt)
  }

  // ----- the order

  lemma {:induction false} OrderAppend<N, V>(s: Schema<N, V>, rs: seq<Rec<N, V>>, r: Rec<N, V>)
    requires InOrder(s, rs) && AllBelow(s, rs, Group(r), Place(s, r))
    ensures InOrder(s, rs + [r])
  {
  }

  lemma {:induction false} SharedOrder<N, V>(s: Schema<N, V>, m: map<N, V>, n: nat)
    requires n <= |s.shared| && Distinct(s.shared)
    ensures InOrder(s, SharedRecs(s.shared, m, n)) && AllBelow(s, SharedRecs(s.shared, m, n), 0, n)
  {
    if n > 0 {
      var rs := SharedRecs(s.shared, m, n - 1);
      SharedOrder(s, m, n - 1);
      IndexIs(s.shared, n - 1);
      if s.shared[n - 1] in m {
        OrderAppend(s, rs, SharedRec(s.shared[n - 1], m[s.shared[n - 1]]));
      } else {
        assert SharedRecs(s.shared, m, n) == rs;
      }
    }
  }

  /** The fields of a frame behind records of earlier frames. */
  lemma {:induction false} FieldsOrder<N, V>(s: Schema<N, V>, before: seq<Rec<N, V>>, k: nat, m: map<N, V>, n: nat)
    requires n <= |s.fields| && Distinct(s.fields) && InOrder(s, before) && AllBelow(s, before, k + 1, 0)
    ensures var rs := before + FieldRecs(s.fields, k, m, n); InOrder(s, rs) && AllBelow(s, rs, k + 1, n)
  {
    if n == 0 {
      assert before + FieldRecs(s.fields, k, m, 0) == before;
    } else {
      var rs := before + FieldRecs(s.fields, k, m, n - 1);
      FieldsOrder(s, before, k, m, n - 1);
      IndexIs(s.fields, n - 1);
      if s.fields[n - 1] in m {
        var r := FieldRec(k, s.fields[n - 1], m[s.fields[n - 1]]);
        OrderAppend(s, rs, r);
        assert before + FieldRecs(s.fields, k, m, n) == rs + [r];
      } else {
        assert before + FieldRecs(s.fields, k, m, n) == rs;
      }
    }
  }

  lemma {:induction false} FrameOrder<N, V>(s: Schema<N, V>, before: seq<Rec<N, V>>, k: nat, f: Frame<N, V>, withDt: bool)
    requires Distinct(s.fields) && InOrder(s, before) && AllBelow(s, before, k + 1, 0)
    ensures var rs := before + FrameRecs(s.fields, k, f, withDt); InOrder(s, rs) && AllBelow(s, rs, k + 2, 0)
  {
    var rs := before + FieldRecs(s.fields, k, f.values, |s.fields|);
    FieldsOrder(s, before, k, f.values, |s.fields|);
    if withDt && f.dt.Given? {
      OrderAppend(s, rs, DtRec(k, f.dt.value));
      assert before + FrameRecs(s.fields, k, f, withDt) == rs + [DtRec(k, f.dt.value)];
    } else {
      assert before + FrameRecs(s.fields, k, f, withDt) == rs;
    }
  }

  lemma {:induction false} FramesOrder<N, V>(s: Schema<N, V>, before: seq<Rec<N, V>>, frames: seq<Frame<N, V>>, withDt: bool, n: nat)
    requires n <= |frames| && Distinct(s.fields) && InOrder(s, before) && AllBelow(s, before, 1, 0)
    ensures var rs := before + FramesRecs(s.fields, frames, withDt, n); InOrder(s, rs) && AllBelow(s, rs, n + 1, 0)
  {
    if n == 0 {
      assert before + FramesRecs(s.fields, frames, withDt, 0) == before;
    } else {
      var rs := before + FramesRecs(s.fields, frames, withDt, n - 1);
      FramesOrder(s, before, frames, withDt, n - 1);
      FrameOrder(s, rs, n - 1, frames[n - 1], withDt);
      assert before + FramesRecs(s.fields, frames, withDt, n) == rs + FrameRecs(s.fields, n - 1, frames[n - 1], withDt);
    }
  }

  // ----- the members

  lemma {:induction false} InPrefix<N>(names: seq<N>, n: nat, x: N)
    requires 0 < n <= |names|
    ensures x in names[..n] <==> x in names[..n - 1] || x == names[n - 1]
  {
    assert names[..n] == names[..n - 1] + [names[n - 1]];
  }

  lemma {:induction false} SharedListed<N, V>(names: seq<N>, m: map<N, V>, n: nat, r: Rec<N, V>)
    requires n <= |names|
    ensures r in SharedRecs(names, m, n) <==> r.SharedRec? && r.name in names[..n] && r.name in m && m[r.name] == r.value
  {
    if n > 0 {
      SharedListed(names, m, n - 1, r);
      if r.SharedRec? { InPrefix(names, n, r.name); }
    }
  }

  lemma {:induction false} FieldsListed<N, V>(names: seq<N>, k: nat, m: map<N, V>, n: nat, r: Rec<N, V>)
    requires n <= |names|
    ensures r in FieldRecs(names, k, m, n)
       <==> r.FieldRec? && r.cycle == k && r.name in names[..n] && r.name in m && m[r.name] == r.value
  {
    if n > 0 {
      FieldsListed(names, k, m, n - 1, r);
      if r.FieldRec? { InPrefix(names, n, r.name); }
    }
  }

  predicate ListedIn<N(==), V(==)>(names: seq<N>, k: nat, f: Frame<N, V>, withDt: bool, r: Rec<N, V>) {
    || (r.FieldRec? && r.cycle == k && r.name in names && r.name in f.values && f.values[r.name] == r.value)
    || (withDt && r.DtRec? && r.cycle == k && f.dt == Given(r.dt))
  }

  lemma {:induction false} FrameListed<N, V>(names: seq<N>, k: nat, f: Frame<N, V>, withDt: bool, r: Rec<N, V>)
    ensures r in FrameRecs(names, k, f, withDt) <==> ListedIn(names, k, f, withDt, r)
  {
    FieldsListed(names, k, f.values, |names|, r);
    assert names[..|names|] == names;
  }

  lemma {:induction false} InConcat<T>(a: seq<T>, b: seq<T>, x: T)
    ensures x in a + b <==> x in a || x in b
  {
  }

  /** The record is listed in one of the first n frames. */
  ghost predicate ListedBelow<N, V>(names: seq<N>, frames: seq<Frame<N, V>>, withDt: bool, n: nat, r: Rec<N, V>)
    requires n <= |frames|
  {
    n > 0 && (ListedBelow(names, frames, withDt, n - 1, r) || ListedIn(names, n - 1, frames[n - 1], withDt, r))
  }

  lemma {:induction false} FramesListed<N, V>(names: seq<N>, frames: seq<Frame<N, V>>, withDt: bool, n: nat, r: Rec<N, V>)
    requires n <= |frames|
    ensures r in FramesRecs(names, frames, withDt, n) <==> ListedBelow(names, frames, withDt, n, r)
  {
    if n > 0 {
      FramesListed(names, frames, withDt, n - 1, r);
      ListedNext(names, frames, withDt, n, r, FramesRecs(names, frames, withDt, n - 1), FramesRecs(names, frames, withDt, n));
    }
  }

  lemma {:induction false} ListedNext<N, V>(names: seq<N>, frames: seq<Frame<N, V>>, withDt: bool, n: nat, r: Rec<N, V>,
                                            front: seq<Rec<N, V>>, all: seq<Rec<N, V>>)
    requires 0 < n <= |frames| && all == front + FrameRecs(names, n - 1, frames[n - 1], withDt)
    requires r in front <==> ListedBelow(names, frames, withDt, n - 1, r)
    ensures r in all <==> ListedBelow(names, frames, withDt, n, r)
  {
    FrameListed(names, n - 1, frames[n - 1], withDt, r);
    InConcat(front, FrameRecs(names, n - 1, frames[n - 1], withDt), r);
  }

  lemma {:induction false} ListedOnce<N, V>(names: seq<N>, frames: seq<Frame<N, V>>, withDt: bool, n: nat, r: Rec<N, V>)
    requires n <= |frames|
    ensures ListedBelow(names, frames, withDt, n, r)
       <==> !r.SharedRec? && r.cycle < n && ListedIn(names, r.cycle, frames[r.cycle], withDt, r)
  {
    if n > 0 { ListedOnce(names, frames, withDt, n - 1, r); }
  }

  /** The canonical records are exactly the values of the testcase, each once, in order. */
  lemma {:induction false} CanonicalInOrder<N, V>(s: Schema<N, V>, tc: TestCase<N, V>, withDt: bool)
    requires Distinct(s.shared) && Distinct(s.fields)
    ensures InOrder(s, CanonicalRecs(s, tc, withDt))
    ensures forall r :: r in CanonicalRecs(s, tc, withDt) <==> Listed(s, tc, withDt, r)
  {
    SharedOrder(s, tc.shared, |s.shared|);
    SharedBelow(s, SharedRecs(s.shared, tc.shared, |s.shared|));
    FramesOrder(s, SharedRecs(s.shared, tc.shared, |s.shared|), tc.frames, withDt, |tc.frames|);
    assert s.shared[..|s.shared|] == s.shared;
    forall r ensures r in CanonicalRecs(s, tc, withDt) <==> Listed(s, tc, withDt, r) {
      SharedListed(s.shared, tc.shared, |s.shared|, r);
      FramesListed(s.fields, tc.frames, withDt, |tc.frames|, r);
      ListedOnce(s.fields, tc.frames, withDt, |tc.frames|, r);
    }
  }

  lemma {:induction false} SharedBelow<N, V>(s: Schema<N, V>, rs: seq<Rec<N, V>>)
    requires AllBelow(s, rs, 0, |s.shared|)
    ensures AllBelow(s, rs, 1, 0)
  {
    forall i | 0 <= i < |rs| ensures Below(s, rs[i], 1, 0) {
      assert Below(s, rs[i], 0, |s.shared|);
    }
  }
}
