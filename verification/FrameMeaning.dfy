/** What a list of records means, record by record: the testcases that `parse_testcase` of
    fuzzer/corpus/frames.py reads, without its dictionaries and its loop. */
module FrameMeaning {
  import opened Wrappers
  import opened FrameCases

  /** What a record assigns. */
  datatype Slot<N> = SharedSlot(name: N) | FieldSlot(cycle: nat, name: N) | DtSlot(cycle: nat)

  function SlotOf<N, V>(r: Rec<N, V>): Slot<N> {
    match r
    case SharedRec(n, _) => SharedSlot(n)
    case FieldRec(k, n, _) => FieldSlot(k, n)
    case DtRec(k, _) => DtSlot(k)
  }

  /** The last of the first m records that assigns the slot, or -1. */
  function LastOf<N(==), V>(rs: seq<Rec<N, V>>, m: nat, slot: Slot<N>): (i: int)
    requires m <= |rs|
    ensures -1 <= i < m && (i >= 0 ==> SlotOf(rs[i]) == slot)
    ensures forall j :: 0 <= i < j < m || (i < 0 <= j < m) ==> SlotOf(rs[j]) != slot
  {
    if m == 0 then -1 else if SlotOf(rs[m - 1]) == slot then m - 1 else LastOf(rs, m - 1, slot)
  }

  function Last<N(==), V>(rs: seq<Rec<N, V>>, slot: Slot<N>): int {
    LastOf(rs, |rs|, slot)
  }

  /** Some record belongs to frame k. */
  ghost predicate Numbered<N, V>(rs: seq<Rec<N, V>>, k: nat) {
    exists i :: 0 <= i < |rs| && InFrame(rs[i], k)
  }

  predicate InFrame<N, V>(r: Rec<N, V>, k: nat) {
    !r.SharedRec? && r.cycle == k
  }

  // ----- the testcase of a list of records

  /** A shared field has the value of its last record. */
  ghost predicate SharedRead<N(!new), V>(rs: seq<Rec<N, V>>, shared: map<N, V>) {
    forall n :: (n in shared <==> Last(rs, SharedSlot(n)) >= 0)
             && (n in shared ==> shared[n] == rs[Last(rs, SharedSlot(n))].value)
  }

  /** The frames are numbered from 0 without a gap; without frame records there is one frame. */
  ghost predicate FramesCounted<N, V>(rs: seq<Rec<N, V>>, count: nat) {
    if exists k: nat :: Numbered(rs, k) then forall k: nat :: Numbered(rs, k) <==> k < count else count == 1
  }

  /** A field has the value of its last record in the frame; without one, that of the frame before, and in frame
      0 the shared value or the default. */
  predicate FieldRead<N(==), V(==)>(s: Schema<N, V>, rs: seq<Rec<N, V>>, tc: TestCase<N, V>, k: nat, n: N)
    requires k < |tc.frames|
  {
    var i, values := Last(rs, FieldSlot(k, n)), tc.frames[k].values;
    && n in values
    && if i >= 0 then values[n] == rs[i].value
       else if k > 0 then n in tc.frames[k - 1].values && values[n] == tc.frames[k - 1].values[n]
       else values[n] == if n in tc.shared then tc.shared[n] else s.default(n)
  }

  /** delta_t is that of the last record of the frame; without one, the scan period where there is a range. */
  ghost predicate DtRead<N, V>(rs: seq<Rec<N, V>>, o: Options, tc: TestCase<N, V>, k: nat)
    requires k < |tc.frames|
  {
    var i, dt := Last(rs, DtSlot(k)), tc.frames[k].dt;
    && dt == (if i >= 0 then Given(rs[i].dt) else if o.range.Given? && Numbered(rs, k) then Given(o.scan) else Absent)
    && (dt.Given? && o.range.Given? ==> o.range.value.0 <= dt.value <= o.range.value.1)
  }

  ghost predicate FrameRead<N, V>(s: Schema<N, V>, rs: seq<Rec<N, V>>, o: Options, tc: TestCase<N, V>, k: nat)
    requires k < |tc.frames|
  {
    (forall n :: n in s.fields ==> FieldRead(s, rs, tc, k, n)) && DtRead(rs, o, tc, k)
  }

  /** The first n frames are as the records say. */
  ghost predicate FramesRead<N, V>(s: Schema<N, V>, rs: seq<Rec<N, V>>, o: Options, tc: TestCase<N, V>, n: nat)
    requires n <= |tc.frames|
  {
    n == 0 || (FramesRead(s, rs, o, tc, n - 1) && FrameRead(s, rs, o, tc, n - 1))
  }

  /** The records of declared fields describe this valid testcase. */
  ghost predicate Reads<N(!new), V>(s: Schema<N, V>, rs: seq<Rec<N, V>>, o: Options, tc: TestCase<N, V>) {
    && Declared(s, rs) && Valid(s, tc)
    && SharedRead(rs, tc.shared) && FramesCounted(rs, |tc.frames|)
    && FramesRead(s, rs, o, tc, |tc.frames|)
  }

  /** `validate`: declared names, the fields and no others in every frame, values that pass, and delta_t below 2^64. */
  lemma {:induction false} ValidMeans<N(!new), V>(s: Schema<N, V>, tc: TestCase<N, V>)
    ensures Valid(s, tc)
       <==> && (forall n :: n in tc.shared ==> n in s.shared && s.valueOk(n, tc.shared[n]))
            && forall k :: 0 <= k < |tc.frames| ==>
                 && (forall n :: n in tc.frames[k].values <==> n in s.fields)
                 && (forall n :: n in tc.frames[k].values ==> s.valueOk(n, tc.frames[k].values[n]))
                 && (tc.frames[k].dt.Given? ==> 0 <= tc.frames[k].dt.value < 0x1_0000_0000_0000_0000)
  {
    forall k | 0 <= k < |tc.frames|
      ensures FrameValid(s, tc.frames[k])
         <==> && (forall n :: n in tc.frames[k].values <==> n in s.fields)
              && (forall n :: n in tc.frames[k].values ==> s.valueOk(n, tc.frames[k].values[n]))
              && (tc.frames[k].dt.Given? ==> 0 <= tc.frames[k].dt.value < 0x1_0000_0000_0000_0000)
    {
    }
  }

  // ----- what collecting leaves in the dictionaries

  predicate Holds<N(==), V(==)>(c: Collected<N, V>, r: Rec<N, V>) {
    match r
    case SharedRec(n, v) => n in c.shared && c.shared[n] == v
    case FieldRec(k, n, v) => n in RawAt(c, k) && RawAt(c, k)[n] == v
    case DtRec(k, dt) => k in c.dts && c.dts[k] == dt
  }

  predicate Has<N(==), V>(c: Collected<N, V>, slot: Slot<N>) {
    match slot
    case SharedSlot(n) => n in c.shared
    case FieldSlot(k, n) => n in RawAt(c, k)
    case DtSlot(k) => k in c.dts
  }

  lemma {:induction false} Collects<N, V>(rs: seq<Rec<N, V>>, m: nat, slot: Slot<N>)
    requires m <= |rs|
    ensures var c, i := AddAll(Nothing(), rs, m), LastOf(rs, m, slot);
            if i >= 0 then Holds(c, rs[i]) else !Has(c, slot)
  {
    if m > 0 { Collects(rs, m - 1, slot); }
  }

  lemma {:induction false} CollectsIndex<N, V>(rs: seq<Rec<N, V>>, m: nat, k: nat)
    requires m <= |rs|
    ensures k in Indices(AddAll(Nothing(), rs, m)) <==> exists i :: 0 <= i < m && InFrame(rs[i], k)
  {
    if m > 0 { CollectsIndex(rs, m - 1, k); }
  }

  lemma {:induction false} CollectedDeclared<N, V>(s: Schema<N, V>, rs: seq<Rec<N, V>>, k: nat, n: N)
    requires Declared(s, rs) && n in RawAt(AddAll(Nothing(), rs, |rs|), k)
    ensures n in s.fields
  {
    Collects(rs, |rs|, FieldSlot(k, n));
  }

  // ----- one frame

  lemma {:induction false} InheritedFields<N, V>(s: Schema<N, V>, c: Collected<N, V>, k: nat)
    requires forall i: nat, n :: n in RawAt(c, i) ==> n in s.fields
    ensures forall n :: n in Inherited(s, c, k) <==> n in s.fields
  {
    if k > 0 { InheritedFields(s, c, k - 1); }
  }

  /** The value of one field after frame k, from the dictionaries. */
  lemma {:induction false} FieldIs<N, V>(s: Schema<N, V>, rs: seq<Rec<N, V>>, tc: TestCase<N, V>, k: nat, n: N)
    requires Declared(s, rs) && k < |tc.frames| && n in s.fields && n in tc.frames[k].values
    requires var c := AddAll(Nothing(), rs, |rs|);
             c.shared == tc.shared && (k > 0 ==> tc.frames[k - 1].values == Inherited(s, c, k))
    ensures var c := AddAll(Nothing(), rs, |rs|);
            && n in Inherited(s, c, k + 1)
            && (FieldRead(s, rs, tc, k, n) <==> tc.frames[k].values[n] == Inherited(s, c, k + 1)[n])
  {
    var c := AddAll(Nothing(), rs, |rs|);
    AllDeclared(s, rs);
    InheritedFields(s, c, k);
    Collects(rs, |rs|, FieldSlot(k, n));
  }

  lemma {:induction false} AllDeclared<N, V>(s: Schema<N, V>, rs: seq<Rec<N, V>>)
    requires Declared(s, rs)
    ensures forall k: nat, n :: n in RawAt(AddAll(Nothing(), rs, |rs|), k) ==> n in s.fields
  {
    forall k: nat, n | n in RawAt(AddAll(Nothing(), rs, |rs|), k) ensures n in s.fields {
      CollectedDeclared(s, rs, k, n);
    }
  }

  lemma {:induction false} ValuesAre<N(!new), V>(s: Schema<N, V>, rs: seq<Rec<N, V>>, tc: TestCase<N, V>, k: nat)
    requires Declared(s, rs) && k < |tc.frames| && Assigns(tc.frames[k], s.fields)
    requires var c := AddAll(Nothing(), rs, |rs|);
             c.shared == tc.shared && (k > 0 ==> tc.frames[k - 1].values == Inherited(s, c, k))
    ensures var c := AddAll(Nothing(), rs, |rs|);
            (forall n :: n in s.fields ==> FieldRead(s, rs, tc, k, n)) <==> tc.frames[k].values == Inherited(s, c, k + 1)
  {
    var c, values := AddAll(Nothing(), rs, |rs|), tc.frames[k].values;
    AllDeclared(s, rs);
    InheritedFields(s, c, k + 1);
    forall n | n in s.fields ensures FieldRead(s, rs, tc, k, n) <==> n in values && values[n] == Inherited(s, c, k + 1)[n] {
      FieldIs(s, rs, tc, k, n);
    }
    SameMap(s.fields, values, Inherited(s, c, k + 1));
  }

  lemma {:induction false} SameMap<N(!new), V>(names: seq<N>, a: map<N, V>, b: map<N, V>)
    requires (forall n :: n in a <==> n in names) && forall n :: n in b <==> n in names
    ensures (forall n :: n in names ==> a[n] == b[n]) <==> a == b
  {
  }

  lemma {:induction false} DtIs<N(!new), V>(rs: seq<Rec<N, V>>, o: Options, tc: TestCase<N, V>, k: nat)
    requires k < |tc.frames|
    ensures var c := AddAll(Nothing(), rs, |rs|);
            var dt := if Numbered(rs, k) then DtAt(c, o, k) else Absent;
            DtRead(rs, o, tc, k) <==> tc.frames[k].dt == dt && InRange(o, dt)
  {
    Collects<N, V>(rs, |rs|, DtSlot(k));
    var i := Last(rs, DtSlot(k));
    if i >= 0 { assert InFrame(rs[i], k); }
  }

  ghost predicate AllNumbered<N, V>(rs: seq<Rec<N, V>>, n: nat) {
    forall k: nat :: k < n ==> Numbered(rs, k)
  }

  /** The first n frames are what the building loop makes of the dictionaries exactly when they are as the
      records say. */
  lemma {:induction false} FirstBuilt<N(!new), V>(s: Schema<N, V>, rs: seq<Rec<N, V>>, o: Options, tc: TestCase<N, V>, n: nat)
    requires Declared(s, rs) && n <= |tc.frames| && AllAssign(tc.frames, s.fields) && AllNumbered(rs, n)
    requires AddAll(Nothing(), rs, |rs|).shared == tc.shared
    ensures FramesRead(s, rs, o, tc, n) <==> BuildFrames(s, AddAll(Nothing(), rs, |rs|), o, n) == Done(tc.frames[..n])
    ensures FramesRead(s, rs, o, tc, n) && n > 0 ==> tc.frames[n - 1].values == Inherited(s, AddAll(Nothing(), rs, |rs|), n)
  {
    if n > 0 {
      FirstBuilt(s, rs, o, tc, n - 1);
      BuildNextIs(s, AddAll(Nothing(), rs, |rs|), o, n, tc.frames);
      if FramesRead(s, rs, o, tc, n - 1) {
        FrameIs(s, rs, o, tc, n - 1);
      }
    }
  }

  lemma {:induction false} FrameIs<N(!new), V>(s: Schema<N, V>, rs: seq<Rec<N, V>>, o: Options, tc: TestCase<N, V>, k: nat)
    requires Declared(s, rs) && k < |tc.frames| && AllAssign(tc.frames, s.fields) && Numbered(rs, k)
    requires var c := AddAll(Nothing(), rs, |rs|);
             c.shared == tc.shared && (k > 0 ==> tc.frames[k - 1].values == Inherited(s, c, k))
    ensures var c := AddAll(Nothing(), rs, |rs|);
            FrameRead(s, rs, o, tc, k) <==> InRange(o, DtAt(c, o, k)) && tc.frames[k] == Frame(Inherited(s, c, k + 1), DtAt(c, o, k))
  {
    ValuesAre(s, rs, tc, k);
    DtIs(rs, o, tc, k);
  }

  lemma {:induction false} BuildNextIs<N, V>(s: Schema<N, V>, c: Collected<N, V>, o: Options, n: nat, frames: seq<Frame<N, V>>)
    requires 0 < n <= |frames|
    ensures BuildFrames(s, c, o, n) == Done(frames[..n])
       <==> && BuildFrames(s, c, o, n - 1) == Done(frames[..n - 1])
            && InRange(o, DtAt(c, o, n - 1)) && frames[n - 1] == Frame(Inherited(s, c, n), DtAt(c, o, n - 1))
  {
    var front := frames[..n - 1];
    assert frames[..n] == front + [frames[n - 1]];
    if BuildFrames(s, c, o, n).Done? {
      var built := BuildFrames(s, c, o, n - 1).value;
      var last := Frame(Inherited(s, c, n), DtAt(c, o, n - 1));
      if built + [last] == frames[..n] {
        assert built == (built + [last])[..|built|] == front && last == (built + [last])[|built|];
      }
    }
  }

  // ----- the whole testcase

  lemma {:induction false} SharedIs<N(!new), V>(rs: seq<Rec<N, V>>, shared: map<N, V>)
    ensures SharedRead(rs, shared) <==> shared == AddAll(Nothing(), rs, |rs|).shared
  {
    var c := AddAll(Nothing(), rs, |rs|);
    forall n ensures n in c.shared <==> Last(rs, SharedSlot(n)) >= 0
      ensures n in c.shared ==> c.shared[n] == rs[Last(rs, SharedSlot(n))].value
    {
      Collects(rs, |rs|, SharedSlot(n));
    }
    if SharedRead(rs, shared) {
      assert forall n :: n in shared <==> n in c.shared;
    }
  }

  lemma {:induction false} IndexIs<N, V>(rs: seq<Rec<N, V>>)
    ensures forall k: nat :: k in Indices(AddAll(Nothing(), rs, |rs|)) <==> Numbered(rs, k)
  {
    forall k: nat ensures k in Indices(AddAll(Nothing(), rs, |rs|)) <==> Numbered(rs, k) {
      CollectsIndex(rs, |rs|, k);
    }
  }

  /** The dictionaries hold frames 0 to n - 1 exactly when the records do. */
  lemma {:induction false} CountIs<N, V>(rs: seq<Rec<N, V>>, n: nat)
    requires exists k: nat :: Numbered(rs, k)
    ensures var indices := Indices(AddAll(Nothing(), rs, |rs|));
            FramesCounted(rs, n) <==> indices == Upto(|indices|) && |indices| == n
  {
    IndexIs(rs);
    var indices := Indices(AddAll(Nothing(), rs, |rs|));
    if FramesCounted(rs, n) {
      forall k: nat ensures k in indices <==> k in Upto(n) {
      }
      assert indices == Upto(n);
    }
  }

  /** Every record of a parsed text is of a declared field. */
  lemma {:induction false} ParsedDeclared<N(!new), V>(s: Schema<N, V>, rs: seq<Rec<N, V>>, o: Options, i: nat)
    requires Parse(s, rs, o).Done? && i < |rs|
    ensures match rs[i]
            case SharedRec(n, _) => n in s.shared
            case FieldRec(_, n, _) => n in s.fields
            case DtRec(_, _) => true
  {
    var c, tc := AddAll(Nothing(), rs, |rs|), Parse(s, rs, o).value;
    Collects(rs, |rs|, SlotOf(rs[i]));
    match rs[i]
    case SharedRec(n, _) =>
    case FieldRec(k, n, _) =>
      CollectsIndex(rs, |rs|, k);
      assert InFrame(rs[i], k);
      BuiltFrames(s, c, o, |Indices(c)|);
      assert n in Inherited(s, c, k + 1);
      assert FrameValid(s, tc.frames[k]);
    case DtRec(_, _) =>
  }

  lemma {:induction false} AllParsedDeclared<N(!new), V>(s: Schema<N, V>, rs: seq<Rec<N, V>>, o: Options)
    requires Parse(s, rs, o).Done?
    ensures Declared(s, rs)
  {
    forall i | 0 <= i < |rs|
      ensures match rs[i]
              case SharedRec(n, _) => n in s.shared
              case FieldRec(_, n, _) => n in s.fields
              case DtRec(_, _) => true
    {
      ParsedDeclared(s, rs, o, i);
    }
  }

  lemma {:induction false} ValidAssigns<N, V>(s: Schema<N, V>, tc: TestCase<N, V>)
    requires Valid(s, tc)
    ensures AllAssign(tc.frames, s.fields)
  {
    forall i | 0 <= i < |tc.frames| ensures Assigns(tc.frames[i], s.fields) {
      assert FrameValid(s, tc.frames[i]);
    }
  }

  lemma {:induction false} ParseIs<N(!new), V>(s: Schema<N, V>, rs: seq<Rec<N, V>>, o: Options, tc: TestCase<N, V>)
    requires Valid(s, tc) && Indices(AddAll(Nothing(), rs, |rs|)) != {}
    ensures var c, n := AddAll(Nothing(), rs, |rs|), |tc.frames|;
            var indices := Indices(c);
            Parse(s, rs, o) == Done(tc) <==> indices == Upto(|indices|) && |indices| == n && c.shared == tc.shared
                                             && BuildFrames(s, c, o, n) == Done(tc.frames)
  {
    var c := AddAll(Nothing(), rs, |rs|);
    var indices := Indices(c);
    if BuildFrames(s, c, o, |indices|).Done? { BuiltFrames(s, c, o, |indices|); }
    assert tc == TestCase(tc.shared, tc.frames);
  }

  /** With frame records: the frames are those of the building loop. */
  lemma {:induction false} FramesMean<N(!new), V>(s: Schema<N, V>, rs: seq<Rec<N, V>>, o: Options, tc: TestCase<N, V>)
    requires Declared(s, rs) && Valid(s, tc) && exists k: nat :: Numbered(rs, k)
    ensures Parse(s, rs, o) == Done(tc) <==> Reads(s, rs, o, tc)
  {
    ValidAssigns(s, tc);
    SharedIs(rs, tc.shared);
    CountIs(rs, |tc.frames|);
    SomeIndex(rs);
    ParseIs(s, rs, o, tc);
    if AddAll(Nothing(), rs, |rs|).shared == tc.shared && FramesCounted(rs, |tc.frames|) {
      FirstBuilt(s, rs, o, tc, |tc.frames|);
      assert tc.frames[..|tc.frames|] == tc.frames;
    }
  }

  lemma {:induction false} SomeIndex<N, V>(rs: seq<Rec<N, V>>)
    requires exists k: nat :: Numbered(rs, k)
    ensures Indices(AddAll(Nothing(), rs, |rs|)) != {}
  {
    IndexIs(rs);
    var k: nat :| Numbered(rs, k);
    assert k in Indices(AddAll(Nothing(), rs, |rs|));
  }

  lemma {:induction false} LoneFrameIs<N(!new), V>(s: Schema<N, V>, rs: seq<Rec<N, V>>, o: Options, tc: TestCase<N, V>)
    requires Declared(s, rs) && |tc.frames| == 1 && Assigns(tc.frames[0], s.fields) && !Numbered(rs, 0)
    requires var c := AddAll(Nothing(), rs, |rs|); c.shared == tc.shared && RawAt(c, 0) == map[]
    ensures FrameRead(s, rs, o, tc, 0) <==> tc.frames[0] == Frame(Initial(s, tc.shared), Absent)
  {
    var c := AddAll(Nothing(), rs, |rs|);
    ValuesAre(s, rs, tc, 0);
    DtIs(rs, o, tc, 0);
    assert Inherited(s, c, 1) == Inherited(s, c, 0) + RawAt(c, 0) == Initial(s, c.shared);
  }

  lemma {:induction false} ParseLone<N, V>(s: Schema<N, V>, rs: seq<Rec<N, V>>, o: Options)
    requires forall k: nat :: !Numbered(rs, k)
    ensures var c := AddAll(Nothing(), rs, |rs|);
            RawAt(c, 0) == map[] && Parse(s, rs, o) == Checked(s, TestCase(c.shared, [Frame(Initial(s, c.shared), Absent)]))
  {
    var c := AddAll(Nothing(), rs, |rs|);
    IndexIs(rs);
    assert Indices(c) == {};
    assert BuildFrames(s, c, o, 0) == Done([]);
  }

  lemma {:induction false} OneElement<T>(xs: seq<T>, x: T)
    ensures xs == [x] <==> |xs| == 1 && xs[0] == x
  {
  }

  lemma {:induction false} CheckedIs<N, V>(s: Schema<N, V>, tc: TestCase<N, V>, shared: map<N, V>, f: Frame<N, V>)
    requires Valid(s, tc)
    ensures Checked(s, TestCase(shared, [f])) == Done(tc) <==> tc.shared == shared && |tc.frames| == 1 && tc.frames[0] == f
  {
    OneElement(tc.frames, f);
    assert tc == TestCase(tc.shared, tc.frames);
  }

  lemma {:induction false} OneFrameRead<N, V>(s: Schema<N, V>, rs: seq<Rec<N, V>>, o: Options, tc: TestCase<N, V>)
    requires |tc.frames| == 1
    ensures FramesRead(s, rs, o, tc, 1) <==> FrameRead(s, rs, o, tc, 0)
  {
    assert FramesRead(s, rs, o, tc, 0);
  }

  /** Without frame records: one frame of shared values and defaults, without delta_t. */
  lemma {:induction false} LoneMeans<N(!new), V>(s: Schema<N, V>, rs: seq<Rec<N, V>>, o: Options, tc: TestCase<N, V>)
    requires Declared(s, rs) && Valid(s, tc) && forall k: nat :: !Numbered(rs, k)
    ensures Parse(s, rs, o) == Done(tc) <==> Reads(s, rs, o, tc)
  {
    var shared := AddAll(Nothing(), rs, |rs|).shared;
    ValidAssigns(s, tc);
    SharedIs(rs, tc.shared);
    ParseLone(s, rs, o);
    CheckedIs(s, tc, shared, Frame(Initial(s, shared), Absent));
    if tc.shared == shared && |tc.frames| == 1 {
      OneFrameRead(s, rs, o, tc);
      LoneFrameIs(s, rs, o, tc);
    }
  }

  /** Parsing yields a testcase exactly when the records describe it; so it is refused exactly when they
      describe none. */
  lemma {:induction false} ParseReads<N(!new), V>(s: Schema<N, V>, rs: seq<Rec<N, V>>, o: Options, tc: TestCase<N, V>)
    ensures Parse(s, rs, o) == Done(tc) <==> Reads(s, rs, o, tc)
  {
    if Parse(s, rs, o) == Done(tc) { AllParsedDeclared(s, rs, o); }
    if Declared(s, rs) && Valid(s, tc) {
      if exists k: nat :: Numbered(rs, k) { FramesMean(s, rs, o, tc); } else { LoneMeans(s, rs, o, tc); }
    }
  }
}
