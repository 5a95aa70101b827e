/** The scan loop of `semantist_v3_execute` (compiler/harness/v3gen.py) against `parse_testcase` of
    fuzzer/corpus/frames.py: on which records both make the same frames. */
module ScanAgreement {
  import opened Wrappers
  import opened FrameCases
  import opened FrameMeaning
  import opened ScanRun
  import opened ScanMeaning

  function EntryOf<N, V>(r: Rec<N, V>): Entry<N, V>
    requires !r.SharedRec?
  {
    match r
    case FieldRec(k, n, v) => FieldEntry(k, n, v)
    case DtRec(k, dt) => DtEntry(k, dt)
  }

  /** The frame records among the first n. */
  function Entries<N, V>(rs: seq<Rec<N, V>>, n: nat): seq<Entry<N, V>>
    requires n <= |rs|
  {
    if n == 0 then []
    else if rs[n - 1].SharedRec? then Entries(rs, n - 1) else Entries(rs, n - 1) + [EntryOf(rs[n - 1])]
  }

  /** The last of the first n records of frame k that assigns x, or -1. */
  function LastIn<N(==), V>(es: seq<Entry<N, V>>, n: nat, k: int, x: N): (i: int)
    requires n <= |es|
    ensures -1 <= i < n && (i >= 0 ==> Assigning(es[i], x) && es[i].cycle == k)
    ensures forall j: nat :: i < j < n && es[j].cycle == k ==> !Assigning(es[j], x)
  {
    if n == 0 then -1 else if Assigning(es[n - 1], x) && es[n - 1].cycle == k then n - 1 else LastIn(es, n - 1, k, x)
  }

  /** The last of the first n records that gives frame k its delta_t, or -1. */
  function LastDtIn<N, V>(es: seq<Entry<N, V>>, n: nat, k: int): (i: int)
    requires n <= |es|
    ensures -1 <= i < n && (i >= 0 ==> es[i].DtEntry? && es[i].cycle == k)
    ensures forall j: nat :: i < j < n && es[j].cycle == k ==> !es[j].DtEntry?
  {
    if n == 0 then -1 else if es[n - 1].DtEntry? && es[n - 1].cycle == k then n - 1 else LastDtIn(es, n - 1, k)
  }

  lemma {:induction false} LastInPrefix<N, V>(es: seq<Entry<N, V>>, e: Entry<N, V>, n: nat, k: int, x: N)
    requires n <= |es|
    ensures LastIn(es + [e], n, k, x) == LastIn(es, n, k, x)
  {
    if n > 0 { LastInPrefix(es, e, n - 1, k, x); }
  }

  lemma {:induction false} LastDtPrefix<N, V>(es: seq<Entry<N, V>>, e: Entry<N, V>, n: nat, k: int)
    requires n <= |es|
    ensures LastDtIn(es + [e], n, k) == LastDtIn(es, n, k)
  {
    if n > 0 { LastDtPrefix(es, e, n - 1, k); }
  }

  /** Leaving out the shared records changes no frame. */
  lemma {:induction false} FieldKept<N, V>(rs: seq<Rec<N, V>>, n: nat, k: nat, x: N)
    requires n <= |rs|
    ensures var es, i := Entries(rs, n), LastOf(rs, n, FieldSlot(k, x));
            var j := LastIn(es, |es|, k, x);
            (i >= 0 <==> j >= 0) && (i >= 0 ==> rs[i].value == es[j].value)
  {
    if n > 0 {
      FieldKept(rs, n - 1, k, x);
      if !rs[n - 1].SharedRec? { LastInPrefix(Entries(rs, n - 1), EntryOf(rs[n - 1]), |Entries(rs, n - 1)|, k, x); }
    }
  }

  lemma {:induction false} DtKept<N, V>(rs: seq<Rec<N, V>>, n: nat, k: nat)
    requires n <= |rs|
    ensures var es, i := Entries(rs, n), LastOf(rs, n, DtSlot(k));
            var j := LastDtIn(es, |es|, k);
            (i >= 0 <==> j >= 0) && (i >= 0 ==> rs[i].dt == es[j].dt)
  {
    if n > 0 {
      DtKept(rs, n - 1, k);
      if !rs[n - 1].SharedRec? { LastDtPrefix(Entries(rs, n - 1), EntryOf(rs[n - 1]), |Entries(rs, n - 1)|, k); }
    }
  }

  // ----- frames in order

  /** The frames come in order, from 0 and without a gap. */
  predicate Steady<N, V>(es: seq<Entry<N, V>>) {
    && (es != [] ==> es[0].cycle == 0)
    && forall i :: 0 < i < |es| ==> es[i - 1].cycle <= es[i].cycle <= es[i - 1].cycle + 1
  }

  lemma {:induction false} SteadyGrows<N, V>(es: seq<Entry<N, V>>, i: nat, j: nat)
    requires Steady(es) && i <= j < |es|
    ensures 0 <= es[i].cycle <= es[j].cycle
  {
    if i < j { SteadyGrows(es, i, j - 1); } else if i > 0 { SteadyGrows(es, i - 1, i - 1); }
  }

  /** Every frame but the last has its end. */
  lemma {:induction false} EndsCount<N, V>(es: seq<Entry<N, V>>, n: nat)
    requires Steady(es) && 0 < n <= |es|
    ensures |Ends(es, n)| == es[n - 1].cycle
    ensures forall j :: 0 <= j < |Ends(es, n)| ==> es[Ends(es, n)[j]].cycle == j + 1
  {
    SteadyGrows(es, 0, n - 1);
    if n > 1 {
      EndsCount(es, n - 1);
      SteadyGrows(es, 0, n - 2);
    } else {
      assert Ends(es, 0) == [] && !EndsAt(es, 0);
    }
  }

  /** Where frame k ends. */
  function EndOf<N, V>(es: seq<Entry<N, V>>, k: nat): (e: nat)
    ensures e <= |es|
  {
    if k < |Ends(es, |es|)| then Ends(es, |es|)[k] else |es|
  }

  lemma {:induction false} BeforeEnd<N, V>(es: seq<Entry<N, V>>, k: nat, i: nat)
    requires Steady(es) && i < |es| && k <= es[|es| - 1].cycle
    ensures i < EndOf(es, k) <==> es[i].cycle <= k
  {
    var ends := Ends(es, |es|);
    EndsCount(es, |es|);
    SteadyGrows(es, i, |es| - 1);
    if k < |ends| {
      if i < ends[k] { SteadyGrows(es, i, ends[k] - 1); } else { SteadyGrows(es, ends[k], i); }
    }
  }

  /** At the end of frame k the last record of a field is the last in the frame, or that at the end of the frame
      before. */
  lemma {:induction false} LastAtEnd<N, V>(es: seq<Entry<N, V>>, k: nat, x: N)
    requires Steady(es) && es != [] && k <= es[|es| - 1].cycle
    ensures var p, q := LastField(es, EndOf(es, k), x), LastIn(es, |es|, k, x);
            if q >= 0 then p == q else if k > 0 then p == LastField(es, EndOf(es, k - 1), x) else p < 0
  {
    var p, q := LastField(es, EndOf(es, k), x), LastIn(es, |es|, k, x);
    if q >= 0 {
      BeforeEnd(es, k, q);
      if p > q {
        BeforeEnd(es, k, p);
        SteadyGrows(es, q, p);
      }
    } else if k > 0 {
      var b := LastField(es, EndOf(es, k - 1), x);
      if p >= 0 {
        BeforeEnd(es, k, p);
        BeforeEnd(es, k - 1, p);
      }
      if b >= 0 {
        BeforeEnd(es, k - 1, b);
        BeforeEnd(es, k, b);
      }
    } else if p >= 0 {
      BeforeEnd(es, 0, p);
      SteadyGrows(es, 0, p);
    }
  }

  lemma {:induction false} EndsIn<N, V>(es: seq<Entry<N, V>>, k: nat)
    requires Steady(es) && es != [] && k <= es[|es| - 1].cycle
    ensures 0 < EndOf(es, k) && es[EndOf(es, k) - 1].cycle == k
  {
    var e := EndOf(es, k);
    EndsCount(es, |es|);
    BeforeEnd(es, k, 0);
    BeforeEnd(es, k, e - 1);
    assert e < |es| ==> es[e].cycle <= es[e - 1].cycle + 1;
  }

  /** The delta_t at the end of frame k is the last of the frame. */
  lemma {:induction false} DtAtEnd<N, V>(t: Target<N, V>, es: seq<Entry<N, V>>, k: nat, dt: int)
    requires Steady(es) && es != [] && k <= es[|es| - 1].cycle
    ensures var i := LastDtIn(es, |es|, k);
            DtMeans(t, es, EndOf(es, k), dt) <==> dt == if i >= 0 then es[i].dt else t.period
  {
    var e, i, j := EndOf(es, k), LastDtIn(es, |es|, k), LastDt(es, EndOf(es, k));
    EndsIn(es, k);
    var start := FrameStart(es, e);
    if i >= 0 {
      BeforeEnd(es, k, i);
      if i < start { SteadyGrows(es, i, start - 1); SteadyGrows(es, start - 1, e - 1); }
    }
    if j >= start { assert es[j].cycle == k; }
  }

  // ----- the entries and the records

  ghost predicate HasCycle<N, V>(es: seq<Entry<N, V>>, k: nat) {
    exists i :: 0 <= i < |es| && es[i].cycle == k
  }

  lemma {:induction false} CycleAdded<N, V>(es: seq<Entry<N, V>>, e: Entry<N, V>, k: nat)
    ensures HasCycle(es + [e], k) <==> HasCycle(es, k) || e.cycle == k
  {
    assert (es + [e])[|es|] == e;
    if HasCycle(es, k) {
      var i :| 0 <= i < |es| && es[i].cycle == k;
      assert (es + [e])[i].cycle == k;
    }
  }

  lemma {:induction false} EntriesNumbered<N, V>(rs: seq<Rec<N, V>>, n: nat, k: nat)
    requires n <= |rs|
    ensures HasCycle(Entries(rs, n), k) <==> exists i :: 0 <= i < n && InFrame(rs[i], k)
  {
    if n > 0 {
      EntriesNumbered(rs, n - 1, k);
      if !rs[n - 1].SharedRec? { CycleAdded(Entries(rs, n - 1), EntryOf(rs[n - 1]), k); }
    }
  }

  /** There are as many frames as the last record says. */
  lemma {:induction false} LastNumber<N, V>(rs: seq<Rec<N, V>>, count: nat)
    requires var es := Entries(rs, |rs|); Steady(es) && es != [] && FramesCounted(rs, count)
    ensures var es := Entries(rs, |rs|); es[|es| - 1].cycle == count - 1
  {
    var es := Entries(rs, |rs|);
    var last := es[|es| - 1].cycle;
    SteadyGrows(es, 0, |es| - 1);
    EntriesNumbered(rs, |rs|, last);
    assert Numbered(rs, last);
    assert last < count;
    EntriesNumbered(rs, |rs|, count - 1);
    assert Numbered(rs, count - 1);
    var i :| 0 <= i < |es| && es[i].cycle == count - 1;
    SteadyGrows(es, i, |es| - 1);
  }

  lemma {:induction false} RunEntriesPrefix<N, V>(t: Target<N, V>, es: seq<Entry<N, V>>, e: Entry<N, V>, n: nat)
    requires n <= |es|
    ensures RunEntries(t, es + [e], n) == RunEntries(t, es, n)
  {
    if n > 0 { RunEntriesPrefix(t, es, e, n - 1); }
  }

  lemma {:induction false} RecsAreEntries<N, V>(t: Target<N, V>, rs: seq<Rec<N, V>>, n: nat)
    requires n <= |rs|
    ensures RunRecs(t, Start(t), rs, n) == RunEntries(t, Entries(rs, n), |Entries(rs, n)|)
  {
    if n > 0 {
      RecsAreEntries(t, rs, n - 1);
      if !rs[n - 1].SharedRec? { RunEntriesPrefix(t, Entries(rs, n - 1), EntryOf(rs[n - 1]), |Entries(rs, n - 1)|); }
    }
  }

  // ----- values

  /** Frame 0 sets every field. */
  predicate FirstSetsAll<N(==), V>(s: Schema<N, V>, rs: seq<Rec<N, V>>) {
    forall i :: 0 <= i < |s.fields| ==> Last(rs, FieldSlot(0, s.fields[i])) >= 0
  }

  lemma {:induction false} NthFrame<N, V>(s: Schema<N, V>, rs: seq<Rec<N, V>>, o: Options, tc: TestCase<N, V>, n: nat, k: nat)
    requires k < n <= |tc.frames| && FramesRead(s, rs, o, tc, n)
    ensures FrameRead(s, rs, o, tc, k)
  {
    if k < n - 1 { NthFrame(s, rs, o, tc, n - 1, k); }
  }

  /** At the end of frame k a field that frame 0 sets has the value that the parser gives it in frame k. */
  lemma {:induction false} FieldAgrees<N(!new), V>(s: Schema<N, V>, rs: seq<Rec<N, V>>, o: Options, tc: TestCase<N, V>, k: nat, x: N)
    requires Reads(s, rs, o, tc) && k < |tc.frames| && x in s.fields && Last(rs, FieldSlot(0, x)) >= 0
    requires var es := Entries(rs, |rs|); Steady(es) && es != []
    ensures var es := Entries(rs, |rs|);
            var p := LastField(es, EndOf(es, k), x);
            p >= 0 && x in tc.frames[k].values && es[p].value == tc.frames[k].values[x]
  {
    var es := Entries(rs, |rs|);
    LastNumber(rs, |tc.frames|);
    LastAtEnd(es, k, x);
    FieldKept(rs, |rs|, k, x);
    NthFrame(s, rs, o, tc, |tc.frames|, k);
    assert FieldRead(s, rs, tc, k, x);
    if k > 0 { FieldAgrees(s, rs, o, tc, k - 1, x); }
  }

  lemma {:induction false} FrameKeys<N(!new), V>(s: Schema<N, V>, tc: TestCase<N, V>, k: nat)
    requires Valid(s, tc) && k < |tc.frames|
    ensures forall x :: x in tc.frames[k].values <==> x in s.fields
  {
    assert FrameValid(s, tc.frames[k]);
  }

  lemma {:induction false} FirstSets<N, V>(s: Schema<N, V>, rs: seq<Rec<N, V>>, x: N)
    requires FirstSetsAll(s, rs) && x in s.fields
    ensures Last(rs, FieldSlot(0, x)) >= 0
  {
    var i :| 0 <= i < |s.fields| && s.fields[i] == x;
  }

  lemma {:induction false} SameMaps<N(!new), V>(a: map<N, V>, b: map<N, V>, fields: seq<N>)
    requires (forall x :: x in a ==> x in fields) && (forall x :: x in b <==> x in fields)
    requires forall x :: x in fields ==> x in a && x in b && a[x] == b[x]
    ensures a == b
  {
  }

  lemma {:induction false} ValuesAgree<N(!new), V>(s: Schema<N, V>, t: Target<N, V>, rs: seq<Rec<N, V>>, o: Options, tc: TestCase<N, V>,
                                                   k: nat, values: map<N, V>)
    requires Reads(s, rs, o, tc) && k < |tc.frames| && t.fields == s.fields && FirstSetsAll(s, rs)
    requires var es := Entries(rs, |rs|); Steady(es) && es != [] && ValuesMean(t, es, EndOf(es, k), values)
    ensures values == tc.frames[k].values
  {
    FrameKeys(s, tc, k);
    forall x | x in s.fields ensures x in values && values[x] == tc.frames[k].values[x] {
      FirstSets(s, rs, x);
      FieldAgrees(s, rs, o, tc, k, x);
    }
    SameMaps(values, tc.frames[k].values, s.fields);
  }

  /** A field that frame 0 does not set has no value in the first step. */
  lemma {:induction false} UnsetDiffers<N(!new), V>(s: Schema<N, V>, t: Target<N, V>, rs: seq<Rec<N, V>>, o: Options, tc: TestCase<N, V>,
                                                    values: map<N, V>)
    requires Reads(s, rs, o, tc) && |tc.frames| > 0 && t.fields == s.fields && !FirstSetsAll(s, rs)
    requires var es := Entries(rs, |rs|); Steady(es) && es != [] && ValuesMean(t, es, EndOf(es, 0), values)
    ensures values != tc.frames[0].values
  {
    var i :| 0 <= i < |s.fields| && Last(rs, FieldSlot(0, s.fields[i])) < 0;
    FrameKeys(s, tc, 0);
    LastNumber(rs, |tc.frames|);
    UnsetAtEnd(rs, s.fields[i]);
    assert s.fields[i] !in values;
  }

  lemma {:induction false} UnsetAtEnd<N, V>(rs: seq<Rec<N, V>>, x: N)
    requires Last(rs, FieldSlot(0, x)) < 0
    requires var es := Entries(rs, |rs|); Steady(es) && es != [] && 0 <= es[|es| - 1].cycle
    ensures var es := Entries(rs, |rs|); LastField(es, EndOf(es, 0), x) < 0
  {
    LastAtEnd(Entries(rs, |rs|), 0, x);
    FieldKept(rs, |rs|, 0, x);
  }

  // ----- the steps of a run and the frames of the testcase

  function AllSteps<N, V>(run: Run<N, V>): seq<Step<N, V>> {
    run.steps + [Step(run.values, run.dt)]
  }

  /** Step k is taken at the end of frame k. */
  lemma {:induction false} StepAtEnd<N(!new), V>(t: Target<N, V>, es: seq<Entry<N, V>>, run: Run<N, V>, k: nat)
    requires Steady(es) && es != [] && k <= es[|es| - 1].cycle && Gathers(t, es, |es|, run)
    ensures |AllSteps(run)| == es[|es| - 1].cycle + 1 && StepMeans(t, es, EndOf(es, k), AllSteps(run)[k])
  {
    EndsCount(es, |es|);
  }

  ghost predicate SameValues<N, V>(steps: seq<Step<N, V>>, frames: seq<Frame<N, V>>) {
    |steps| == |frames| && forall k :: 0 <= k < |frames| ==> steps[k].values == frames[k].values
  }

  /** delta_t of a step: the last of its frame, or the scan period. */
  ghost predicate SameDts<N, V>(t: Target<N, V>, rs: seq<Rec<N, V>>, steps: seq<Step<N, V>>) {
    forall k: nat :: k < |steps| ==> StepDt(t, rs, k, steps[k].dt)
  }

  predicate StepDt<N(==), V>(t: Target<N, V>, rs: seq<Rec<N, V>>, k: nat, dt: int) {
    var i := Last(rs, DtSlot(k));
    dt == if i >= 0 then rs[i].dt else t.period
  }

  /** On records that list the frames in order and that both accept, the executor takes one step for each frame of
      the parsed testcase; their values are the same exactly when frame 0 sets every field, since the parser
      starts from shared values and defaults and the executor from nothing. */
  lemma {:induction false} ExecutorAgrees<N(!new), V>(s: Schema<N, V>, t: Target<N, V>, rs: seq<Rec<N, V>>, o: Options, tc: TestCase<N, V>,
                                                      run: Run<N, V>)
    requires Parse(s, rs, o) == Done(tc) && RunRecs(t, Start(t), rs, |rs|) == Going(run) && t.fields == s.fields
    requires Entries(rs, |rs|) != [] && Steady(Entries(rs, |rs|))
    ensures |AllSteps(run)| == |tc.frames| && SameDts(t, rs, AllSteps(run))
    ensures SameValues(AllSteps(run), tc.frames) <==> FirstSetsAll(s, rs)
  {
    var es := Entries(rs, |rs|);
    ParseReads(s, rs, o, tc);
    LastNumber(rs, |tc.frames|);
    RecsAreEntries(t, rs, |rs|);
    var i := EntriesMean(t, es, |es|);
    StepAtEnd(t, es, run, 0);
    forall k: nat | k < |tc.frames| ensures StepDt(t, rs, k, AllSteps(run)[k].dt) {
      DtStep(t, rs, es, run, k);
    }
    if FirstSetsAll(s, rs) {
      forall k | 0 <= k < |tc.frames| ensures AllSteps(run)[k].values == tc.frames[k].values {
        StepAtEnd(t, es, run, k);
        ValuesAgree(s, t, rs, o, tc, k, AllSteps(run)[k].values);
      }
    } else {
      UnsetDiffers(s, t, rs, o, tc, AllSteps(run)[0].values);
    }
  }

  lemma {:induction false} DtStep<N(!new), V>(t: Target<N, V>, rs: seq<Rec<N, V>>, es: seq<Entry<N, V>>, run: Run<N, V>, k: nat)
    requires es == Entries(rs, |rs|) && Steady(es) && es != [] && k <= es[|es| - 1].cycle && Gathers(t, es, |es|, run)
    ensures k < |AllSteps(run)| && StepDt(t, rs, k, AllSteps(run)[k].dt)
  {
    StepAtEnd(t, es, run, k);
    DtAtEnd(t, es, k, AllSteps(run)[k].dt);
    DtKept(rs, |rs|, k);
  }
}
