/** Testcases and their records, as fuzzer/corpus/frames.py collects and lists them once the lines have
    been read: names N, values V. */
module FrameCases {
  import opened Wrappers
  import opened Arithmetic

  datatype Rec<N, V> =
    | SharedRec(name: N, value: V)
    | FieldRec(cycle: nat, name: N, value: V)
    | DtRec(cycle: nat, dt: int)

  datatype Frame<N, V> = Frame(values: map<N, V>, dt: Maybe<int>)

  /** The frame at position i has index i. */
  datatype TestCase<N, V> = TestCase(shared: map<N, V>, frames: seq<Frame<N, V>>)

  /** The frame fields and the shared fields in their order, the defaults, and `_validate_value`. */
  datatype Schema<!N, !V> = Schema(fields: seq<N>, shared: seq<N>, default: N -> V, valueOk: (N, V) -> bool)

  /** The scan period and the optional contract range of delta_t. */
  datatype Options = Options(scan: int, range: Maybe<(int, int)>)

  // ----- the canonical list of records

  function SharedRecs<N(==), V>(names: seq<N>, m: map<N, V>, n: nat): seq<Rec<N, V>>
    requires n <= |names|
  {
    if n == 0 then []
    else SharedRecs(names, m, n - 1) + if names[n - 1] in m then [SharedRec(names[n - 1], m[names[n - 1]])] else []
  }

  function FieldRecs<N(==), V>(names: seq<N>, k: nat, m: map<N, V>, n: nat): seq<Rec<N, V>>
    requires n <= |names|
  {
    if n == 0 then []
    else FieldRecs(names, k, m, n - 1) + if names[n - 1] in m then [FieldRec(k, names[n - 1], m[names[n - 1]])] else []
  }

  function FrameRecs<N(==), V>(names: seq<N>, k: nat, f: Frame<N, V>, withDt: bool): seq<Rec<N, V>> {
    FieldRecs(names, k, f.values, |names|) + if withDt && f.dt.Given? then [DtRec(k, f.dt.value)] else []
  }

  function FramesRecs<N(==), V>(names: seq<N>, frames: seq<Frame<N, V>>, withDt: bool, n: nat): seq<Rec<N, V>>
    requires n <= |frames|
  {
    if n == 0 then [] else FramesRecs(names, frames, withDt, n - 1) + FrameRecs(names, n - 1, frames[n - 1], withDt)
  }

  /** `TestCase.canonical`, as records. */
  function CanonicalRecs<N(==), V>(s: Schema<N, V>, tc: TestCase<N, V>, withDt: bool): seq<Rec<N, V>> {
    SharedRecs(s.shared, tc.shared, |s.shared|) + FramesRecs(s.fields, tc.frames, withDt, |tc.frames|)
  }

  // ----- collecting records

  datatype Collected<N, V> = Collected(shared: map<N, V>, raw: map<nat, map<N, V>>, dts: map<nat, int>)

  function RawAt<N, V>(c: Collected<N, V>, k: nat): map<N, V> {
    if k in c.raw then c.raw[k] else map[]
  }

  function Add<N, V>(c: Collected<N, V>, r: Rec<N, V>): Collected<N, V> {
    match r
    case SharedRec(n, v) => c.(shared := c.shared[n := v])
    case FieldRec(k, n, v) => c.(raw := c.raw[k := RawAt(c, k)[n := v]])
    case DtRec(k, dt) => c.(dts := c.dts[k := dt])
  }

  /** The first n records added in order. */
  function AddAll<N, V>(c: Collected<N, V>, rs: seq<Rec<N, V>>, n: nat): Collected<N, V>
    requires n <= |rs|
  {
    if n == 0 then c else Add(AddAll(c, rs, n - 1), rs[n - 1])
  }

  // ----- building the frames

  function Indices<N, V>(c: Collected<N, V>): set<nat> {
    c.raw.Keys + c.dts.Keys
  }

  function Upto(n: nat): (r: set<nat>)
    ensures |r| == n
    ensures forall i: nat :: i in r <==> i < n
  {
    if n == 0 then {} else Upto(n - 1) + {n - 1}
  }

  /** What frame 0 inherits: the default, or the shared value of a field that is shared too. */
  function Initial<N(==), V>(s: Schema<N, V>, shared: map<N, V>): map<N, V> {
    map n | n in s.fields :: if n in shared then shared[n] else s.default(n)
  }

  /** The values of frame k - 1, which frame k inherits. */
  function Inherited<N(==), V>(s: Schema<N, V>, c: Collected<N, V>, k: nat): map<N, V> {
    if k == 0 then Initial(s, c.shared) else Inherited(s, c, k - 1) + RawAt(c, k - 1)
  }

  function DtAt<N, V>(c: Collected<N, V>, o: Options, k: nat): Maybe<int> {
    if k in c.dts then Given(c.dts[k]) else if o.range.Given? then Given(o.scan) else Absent
  }

  predicate InRange(o: Options, dt: Maybe<int>) {
    dt.Given? && o.range.Given? ==> o.range.value.0 <= dt.value <= o.range.value.1
  }

  function BuildFrames<N(==), V>(s: Schema<N, V>, c: Collected<N, V>, o: Options, n: nat): Outcome<seq<Frame<N, V>>> {
    if n == 0 then Done([])
    else
      match BuildFrames(s, c, o, n - 1)
      case Raised => Raised
      case Done(fs) =>
        if InRange(o, DtAt(c, o, n - 1)) then Done(fs + [Frame(Inherited(s, c, n), DtAt(c, o, n - 1))]) else Raised
  }

  const MAX_DT: int := WORD - 1

  /** The frame assigns exactly the given names. */
  predicate Assigns<N(==), V>(f: Frame<N, V>, names: seq<N>) {
    && (forall x :: x in f.values ==> x in names)
    && forall i :: 0 <= i < |names| ==> names[i] in f.values
  }

  predicate FrameValid<N(==), V>(s: Schema<N, V>, f: Frame<N, V>) {
    && Assigns(f, s.fields)
    && (f.dt.Given? ==> 0 <= f.dt.value <= MAX_DT)
    && forall n :: n in f.values ==> s.valueOk(n, f.values[n])
  }

  /** `validate`. */
  predicate Valid<N(==), V>(s: Schema<N, V>, tc: TestCase<N, V>) {
    && (forall n :: n in tc.shared ==> n in s.shared && s.valueOk(n, tc.shared[n]))
    && forall i :: 0 <= i < |tc.frames| ==> FrameValid(s, tc.frames[i])
  }

  function Checked<N(==), V>(s: Schema<N, V>, tc: TestCase<N, V>): Outcome<TestCase<N, V>> {
    if Valid(s, tc) then Done(tc) else Raised
  }

  function Build<N(==), V>(s: Schema<N, V>, c: Collected<N, V>, o: Options): Outcome<TestCase<N, V>> {
    if Indices(c) != Upto(|Indices(c)|) then Raised
    else
      match BuildFrames(s, c, o, |Indices(c)|)
      case Raised => Raised
      case Done(fs) => Checked(s, TestCase(c.shared, if fs == [] then [Frame(Initial(s, c.shared), Absent)] else fs))
  }

  function Nothing<N, V>(): Collected<N, V> {
    Collected(map[], map[], map[])
  }

  /** `parse_testcase` on the records of a text. */
  function Parse<N(==), V>(s: Schema<N, V>, rs: seq<Rec<N, V>>, o: Options): Outcome<TestCase<N, V>> {
    Build(s, AddAll(Nothing(), rs, |rs|), o)
  }

  // ----- collecting a canonical list

  lemma {:induction false} AddAllAppend<N, V>(c: Collected<N, V>, a: seq<Rec<N, V>>, b: seq<Rec<N, V>>, n: nat)
    requires n <= |b|
    ensures AddAll(c, a + b, |a| + n) == AddAll(AddAll(c, a, |a|), b, n)
  {
    if n == 0 {
      AddAllPrefix(c, a, b, |a|);
    } else {
      AddAllAppend(c, a, b, n - 1);
    }
  }

  lemma {:induction false} AddAllPrefix<N, V>(c: Collected<N, V>, a: seq<Rec<N, V>>, b: seq<Rec<N, V>>, n: nat)
    requires n <= |a|
    ensures AddAll(c, a + b, n) == AddAll(c, a, n)
  {
    if n > 0 { AddAllPrefix(c, a, b, n - 1); }
  }

  lemma {:induction false} AddInTurn<N, V>(c: Collected<N, V>, a: seq<Rec<N, V>>, mid: Collected<N, V>, b: seq<Rec<N, V>>, out: Collected<N, V>)
    requires AddAll(c, a, |a|) == mid && AddAll(mid, b, |b|) == out
    ensures AddAll(c, a + b, |a + b|) == out
  {
    AddAllAppend(c, a, b, |b|);
  }

  function Within<N, V>(m: map<N, V>, names: seq<N>, n: nat): map<N, V>
    requires n <= |names|
  {
    map x | x in m && x in names[..n] :: m[x]
  }

  lemma {:induction false} WithinStep<N, V>(m: map<N, V>, names: seq<N>, n: nat)
    requires 0 < n <= |names|
    ensures Within(m, names, n)
         == if names[n - 1] in m then Within(m, names, n - 1)[names[n - 1] := m[names[n - 1]]] else Within(m, names, n - 1)
  {
    assert names[..n] == names[..n - 1] + [names[n - 1]];
  }

  lemma {:induction false} WithinAll<N, V>(m: map<N, V>, names: seq<N>)
    requires forall x :: x in m ==> x in names
    ensures Within(m, names, |names|) == m
  {
    assert names[..|names|] == names;
  }

  lemma {:induction false} AddShared<N, V>(c: Collected<N, V>, names: seq<N>, m: map<N, V>, n: nat)
    requires n <= |names| && c.shared == map[]
    ensures var rs := SharedRecs(names, m, n);
            AddAll(c, rs, |rs|) == c.(shared := Within(m, names, n))
  {
    if n == 0 {
      assert Within(m, names, 0) == map[];
    } else {
      AddShared(c, names, m, n - 1);
      WithinStep(m, names, n);
      var rs := SharedRecs(names, m, n - 1);
      if names[n - 1] in m {
        AddAllAppend(c, rs, [SharedRec(names[n - 1], m[names[n - 1]])], 1);
      } else {
        assert SharedRecs(names, m, n) == rs;
      }
    }
  }

  lemma {:induction false} AddField<N, V>(c: Collected<N, V>, k: nat, before: map<N, V>, some: bool, n: N, v: V)
    requires k !in c.raw && (!some ==> before == map[])
    ensures Add(if some then c.(raw := c.raw[k := before]) else c, FieldRec(k, n, v)) == c.(raw := c.raw[k := before[n := v]])
  {
    assert c.raw[k := before][k := before[n := v]] == c.raw[k := before[n := v]];
  }

  lemma {:induction false} AddFields<N, V>(c: Collected<N, V>, names: seq<N>, k: nat, m: map<N, V>, n: nat)
    requires n <= |names| && k !in c.raw && forall i :: 0 <= i < n ==> names[i] in m
    ensures var rs := FieldRecs(names, k, m, n);
            AddAll(c, rs, |rs|) == if n == 0 then c else c.(raw := c.raw[k := Within(m, names, n)])
  {
    if n > 0 {
      AddFields(c, names, k, m, n - 1);
      WithinStep(m, names, n);
      AddField(c, k, Within(m, names, n - 1), n > 1, names[n - 1], m[names[n - 1]]);
      AddAllAppend(c, FieldRecs(names, k, m, n - 1), [FieldRec(k, names[n - 1], m[names[n - 1]])], 1);
    }
  }

  /** What the first n frames leave behind. */
  function RawOf<N, V>(frames: seq<Frame<N, V>>, n: nat): map<nat, map<N, V>>
    requires n <= |frames|
  {
    if n == 0 then map[] else RawOf(frames, n - 1)[n - 1 := frames[n - 1].values]
  }

  function DtsOf<N, V>(frames: seq<Frame<N, V>>, withDt: bool, n: nat): map<nat, int>
    requires n <= |frames|
  {
    if n == 0 then map[]
    else if withDt && frames[n - 1].dt.Given? then DtsOf(frames, withDt, n - 1)[n - 1 := frames[n - 1].dt.value]
    else DtsOf(frames, withDt, n - 1)
  }

  lemma {:induction false} KeysBelow<N, V>(frames: seq<Frame<N, V>>, withDt: bool, n: nat, k: nat)
    requires n <= |frames|
    ensures k in RawOf(frames, n) <==> k < n
    ensures k in DtsOf(frames, withDt, n) ==> k < n
  {
    if n > 0 { KeysBelow(frames, withDt, n - 1, k); }
  }

  lemma {:induction false} RawOfAt<N, V>(frames: seq<Frame<N, V>>, n: nat, k: nat)
    requires k < n <= |frames|
    ensures k in RawOf(frames, n) && RawOf(frames, n)[k] == frames[k].values
  {
    if k < n - 1 { RawOfAt(frames, n - 1, k); }
  }

  lemma {:induction false} DtsOfAt<N, V>(frames: seq<Frame<N, V>>, withDt: bool, n: nat, k: nat)
    requires k < n <= |frames|
    ensures var d := DtsOf(frames, withDt, n);
            if withDt && frames[k].dt.Given? then k in d && d[k] == frames[k].dt.value else k !in d
  {
    if k < n - 1 { DtsOfAt(frames, withDt, n - 1, k); } else { KeysBelow(frames, withDt, n - 1, k); }
  }

  lemma {:induction false} AddFrame<N, V>(c: Collected<N, V>, names: seq<N>, n: nat, f: Frame<N, V>, withDt: bool)
    requires |names| > 0 && Assigns(f, names) && n !in c.raw
    ensures var rs := FrameRecs(names, n, f, withDt);
            && AddAll(c, rs, |rs|)
               == Collected(c.shared, c.raw[n := f.values], if withDt && f.dt.Given? then c.dts[n := f.dt.value] else c.dts)
  {
    var rs := FieldRecs(names, n, f.values, |names|);
    AddFields(c, names, n, f.values, |names|);
    WithinAll(f.values, names);
    if withDt && f.dt.Given? {
      AddAllAppend(c, rs, [DtRec(n, f.dt.value)], 1);
    } else {
      assert rs + [] == rs;
    }
  }

  predicate AllAssign<N(==), V>(frames: seq<Frame<N, V>>, names: seq<N>) {
    forall i :: 0 <= i < |frames| ==> Assigns(frames[i], names)
  }

  function FramesCollected<N, V>(shared: map<N, V>, frames: seq<Frame<N, V>>, withDt: bool, n: nat): Collected<N, V>
    requires n <= |frames|
  {
    Collected(shared, RawOf(frames, n), DtsOf(frames, withDt, n))
  }

  lemma {:induction false} AddNext<N, V>(shared: map<N, V>, names: seq<N>, frames: seq<Frame<N, V>>, withDt: bool, n: nat)
    requires 0 < n <= |frames| && |names| > 0 && AllAssign(frames, names)
    ensures var rs := FrameRecs(names, n - 1, frames[n - 1], withDt);
            AddAll(FramesCollected(shared, frames, withDt, n - 1), rs, |rs|) == FramesCollected(shared, frames, withDt, n)
  {
    KeysBelow(frames, withDt, n - 1, n - 1);
    AddFrame(FramesCollected(shared, frames, withDt, n - 1), names, n - 1, frames[n - 1], withDt);
  }

  lemma {:induction false} AddFrames<N, V>(shared: map<N, V>, names: seq<N>, frames: seq<Frame<N, V>>, withDt: bool, n: nat)
    requires n <= |frames| && |names| > 0 && AllAssign(frames, names)
    ensures var rs := FramesRecs(names, frames, withDt, n);
            AddAll(Collected(shared, map[], map[]), rs, |rs|) == FramesCollected(shared, frames, withDt, n)
  {
    if n > 0 {
      AddFrames(shared, names, frames, withDt, n - 1);
      AddNext(shared, names, frames, withDt, n);
      AddInTurn(Collected(shared, map[], map[]), FramesRecs(names, frames, withDt, n - 1),
                FramesCollected(shared, frames, withDt, n - 1), FrameRecs(names, n - 1, frames[n - 1], withDt),
                FramesCollected(shared, frames, withDt, n));
    }
  }

  /** Collecting the canonical records of a testcase gives back its shared map, values and delta_t. */
  lemma {:induction false} AddCanonical<N, V>(s: Schema<N, V>, tc: TestCase<N, V>, withDt: bool)
    requires |s.fields| > 0 && AllAssign(tc.frames, s.fields) && forall n :: n in tc.shared ==> n in s.shared
    ensures var rs := CanonicalRecs(s, tc, withDt);
            AddAll(Nothing(), rs, |rs|) == FramesCollected(tc.shared, tc.frames, withDt, |tc.frames|)
  {
    var c: Collected<N, V> := Nothing();
    AddShared(c, s.shared, tc.shared, |s.shared|);
    WithinAll(tc.shared, s.shared);
    AddFrames(tc.shared, s.fields, tc.frames, withDt, |tc.frames|);
    var rest := FramesRecs(s.fields, tc.frames, withDt, |tc.frames|);
    AddAllAppend(c, SharedRecs(s.shared, tc.shared, |s.shared|), rest, |rest|);
  }

  // ----- building them again

  lemma {:induction false} ValidAssigns<N, V>(s: Schema<N, V>, tc: TestCase<N, V>)
    requires Valid(s, tc)
    ensures AllAssign(tc.frames, s.fields)
  {
    forall i | 0 <= i < |tc.frames|
      ensures Assigns(tc.frames[i], s.fields)
    {
      assert FrameValid(s, tc.frames[i]);
    }
  }

  /** The testcase that a canonical text with or without delta_t is read as. */
  function DtAfter(o: Options, withDt: bool, dt: Maybe<int>): Maybe<int> {
    if withDt && dt.Given? then dt else if o.range.Given? then Given(o.scan) else Absent
  }

  function Reread<N, V>(o: Options, frames: seq<Frame<N, V>>, withDt: bool): seq<Frame<N, V>> {
    seq(|frames|, i requires 0 <= i < |frames| => Frame(frames[i].values, DtAfter(o, withDt, frames[i].dt)))
  }

  lemma {:induction false} CollectedAt<N, V>(s: Schema<N, V>, c: Collected<N, V>, o: Options, frames: seq<Frame<N, V>>, withDt: bool, k: nat)
    requires k < |frames| && AllAssign(frames, s.fields)
    requires c.raw == RawOf(frames, |frames|) && c.dts == DtsOf(frames, withDt, |frames|)
    ensures Inherited(s, c, k + 1) == frames[k].values
    ensures DtAt(c, o, k) == DtAfter(o, withDt, frames[k].dt)
  {
    RawOfAt(frames, |frames|, k);
    DtsOfAt(frames, withDt, |frames|, k);
    InheritedWithin(s, c, frames, k);
    assert Assigns(frames[k], s.fields);
  }

  lemma {:induction false} InheritedWithin<N, V>(s: Schema<N, V>, c: Collected<N, V>, frames: seq<Frame<N, V>>, k: nat)
    requires k <= |frames| && AllAssign(frames, s.fields) && c.raw == RawOf(frames, |frames|)
    ensures forall x :: x in Inherited(s, c, k) ==> x in s.fields
  {
    if k > 0 {
      InheritedWithin(s, c, frames, k - 1);
      RawOfAt(frames, |frames|, k - 1);
      assert Assigns(frames[k - 1], s.fields);
    }
  }

  predicate AllInRange<N, V>(o: Options, frames: seq<Frame<N, V>>, n: nat)
    requires n <= |frames|
  {
    n == 0 || (AllInRange(o, frames, n - 1) && InRange(o, frames[n - 1].dt))
  }

  lemma {:induction false} BuildAgain<N, V>(s: Schema<N, V>, c: Collected<N, V>, o: Options, frames: seq<Frame<N, V>>, withDt: bool, n: nat)
    requires n <= |frames| && AllAssign(frames, s.fields)
    requires c.raw == RawOf(frames, |frames|) && c.dts == DtsOf(frames, withDt, |frames|)
    ensures var again := Reread(o, frames, withDt);
            BuildFrames(s, c, o, n) == if AllInRange(o, again, n) then Done(again[..n]) else Raised
  {
    var again := Reread(o, frames, withDt);
    if n > 0 {
      BuildAgain(s, c, o, frames, withDt, n - 1);
      CollectedAt(s, c, o, frames, withDt, n - 1);
      BuildNext(s, c, o, again, n);
    }
  }

  /** The n-th frame is built behind the others, or raises. */
  lemma {:induction false} BuildNext<N, V>(s: Schema<N, V>, c: Collected<N, V>, o: Options, again: seq<Frame<N, V>>, n: nat)
    requires 0 < n <= |again| && again[n - 1] == Frame(Inherited(s, c, n), DtAt(c, o, n - 1))
    requires BuildFrames(s, c, o, n - 1) == if AllInRange(o, again, n - 1) then Done(again[..n - 1]) else Raised
    ensures BuildFrames(s, c, o, n) == if AllInRange(o, again, n) then Done(again[..n]) else Raised
  {
    assert again[..n] == again[..n - 1] + [again[n - 1]];
  }

  lemma {:induction false} IndicesUpto<N, V>(shared: map<N, V>, frames: seq<Frame<N, V>>, withDt: bool)
    ensures Indices(FramesCollected(shared, frames, withDt, |frames|)) == Upto(|frames|)
  {
    forall k: nat
      ensures k in Indices(FramesCollected(shared, frames, withDt, |frames|)) <==> k in Upto(|frames|)
    {
      KeysBelow(frames, withDt, |frames|, k);
    }
  }

  /** Reading the canonical records of a valid testcase gives the same shared map and frames. A frame whose
      delta_t is not listed gets none, or the scan period when the contract has a range. */
  lemma {:induction false} ParseCanonical<N, V>(s: Schema<N, V>, tc: TestCase<N, V>, o: Options, withDt: bool)
    requires |s.fields| > 0 && Valid(s, tc) && |tc.frames| > 0
    ensures var again := Reread(o, tc.frames, withDt);
            && Parse(s, CanonicalRecs(s, tc, withDt), o)
               == if AllInRange(o, again, |again|) then Checked(s, TestCase(tc.shared, again)) else Raised
  {
    var n := |tc.frames|;
    ValidAssigns(s, tc);
    AddCanonical(s, tc, withDt);
    var c := FramesCollected(tc.shared, tc.frames, withDt, n);
    IndicesUpto(tc.shared, tc.frames, withDt);
    BuildAgain(s, c, o, tc.frames, withDt, n);
    assert Reread(o, tc.frames, withDt)[..n] == Reread(o, tc.frames, withDt);
  }

  /** Every frame's delta_t is listed, or need not be. */
  predicate Explicit<N, V>(o: Options, frames: seq<Frame<N, V>>) {
    o.range.Given? ==> forall i :: 0 <= i < |frames| ==> frames[i].dt.Given? && InRange(o, frames[i].dt)
  }

  lemma {:induction false} RereadSame<N, V>(o: Options, frames: seq<Frame<N, V>>)
    requires Explicit(o, frames)
    ensures Reread(o, frames, true) == frames && AllInRange(o, frames, |frames|)
  {
    assert forall i :: 0 <= i < |frames| ==> Reread(o, frames, true)[i] == frames[i];
    ExplicitInRange(o, frames, |frames|);
  }

  lemma {:induction false} ExplicitInRange<N, V>(o: Options, frames: seq<Frame<N, V>>, n: nat)
    requires Explicit(o, frames) && n <= |frames|
    ensures AllInRange(o, frames, n)
  {
    if n > 0 { ExplicitInRange(o, frames, n - 1); }
  }

  lemma {:induction false} InRangeAt<N, V>(o: Options, frames: seq<Frame<N, V>>, n: nat, i: nat)
    requires i < n <= |frames| && AllInRange(o, frames, n)
    ensures InRange(o, frames[i].dt)
  {
    if i < n - 1 { InRangeAt(o, frames, n - 1, i); }
  }

  lemma {:induction false} SameIsExplicit<N, V>(o: Options, frames: seq<Frame<N, V>>)
    requires Reread(o, frames, true) == frames && AllInRange(o, frames, |frames|)
    ensures Explicit(o, frames)
  {
    forall i | 0 <= i < |frames| && o.range.Given?
      ensures frames[i].dt.Given? && InRange(o, frames[i].dt)
    {
      assert frames[i] == Reread(o, frames, true)[i];
      InRangeAt(o, frames, |frames|, i);
    }
  }

  /** Reading the canonical records with delta_t of a valid testcase gives the testcase, exactly when every
      delta_t is listed and in range where the contract has a range. */
  lemma {:induction false} RoundTrip<N, V>(s: Schema<N, V>, tc: TestCase<N, V>, o: Options)
    requires |s.fields| > 0 && Valid(s, tc) && |tc.frames| > 0
    ensures Parse(s, CanonicalRecs(s, tc, true), o) == Done(tc) <==> Explicit(o, tc.frames)
  {
    ParseCanonical(s, tc, o, true);
    if Explicit(o, tc.frames) {
      RereadSame(o, tc.frames);
    } else if Parse(s, CanonicalRecs(s, tc, true), o) == Done(tc) {
      SameIsExplicit(o, tc.frames);
    }
  }

  // ----- canonicalize

  function Canonicalized<N(==), V>(s: Schema<N, V>, rs: seq<Rec<N, V>>, o: Options, withDt: bool): Outcome<seq<Rec<N, V>>> {
    match Parse(s, rs, o)
    case Raised => Raised
    case Done(tc) => Done(CanonicalRecs(s, tc, withDt))
  }

  /** The records name declared fields only. */
  predicate Declared<N(==), V>(s: Schema<N, V>, rs: seq<Rec<N, V>>) {
    forall i :: 0 <= i < |rs| ==> match rs[i]
                                  case SharedRec(n, _) => n in s.shared
                                  case FieldRec(_, n, _) => n in s.fields
                                  case DtRec(_, _) => true
  }

  predicate HasFrames<N, V>(rs: seq<Rec<N, V>>, n: nat)
    requires n <= |rs|
  {
    n > 0 && (HasFrames(rs, n - 1) || !rs[n - 1].SharedRec?)
  }

  lemma {:induction false} IndicesSeen<N, V>(rs: seq<Rec<N, V>>, n: nat)
    requires n <= |rs|
    ensures Indices(AddAll(Nothing(), rs, n)) != {} <==> HasFrames(rs, n)
  {
    if n > 0 {
      IndicesSeen(rs, n - 1);
      var c := AddAll(Nothing(), rs, n - 1);
      match rs[n - 1]
      case SharedRec(_, _) =>
      case FieldRec(k, _, _) => assert k in Indices(Add(c, rs[n - 1]));
      case DtRec(k, _) => assert k in Indices(Add(c, rs[n - 1]));
    }
  }

  lemma {:induction false} BuiltFrames<N, V>(s: Schema<N, V>, c: Collected<N, V>, o: Options, n: nat)
    requires BuildFrames(s, c, o, n).Done?
    ensures |BuildFrames(s, c, o, n).value| == n
    ensures forall i :: 0 <= i < n ==> && BuildFrames(s, c, o, n).value[i] == Frame(Inherited(s, c, i + 1), DtAt(c, o, i))
                                       && InRange(o, DtAt(c, o, i))
  {
    if n > 0 { BuiltFrames(s, c, o, n - 1); }
  }

  /** What an accepted text leaves: a valid testcase whose frames carry a delta_t in range when there is a
      range, or the one frame that stands for a text without frame records. */
  lemma {:induction false} Parsed<N, V>(s: Schema<N, V>, rs: seq<Rec<N, V>>, o: Options)
    requires Parse(s, rs, o).Done?
    ensures var tc := Parse(s, rs, o).value;
            && Valid(s, tc)
            && |tc.frames| > 0
            && (HasFrames(rs, |rs|) ==> Explicit(o, tc.frames))
            && (!HasFrames(rs, |rs|) ==> tc.frames == [Frame(Initial(s, tc.shared), Absent)])
  {
    var c := AddAll(Nothing(), rs, |rs|);
    IndicesSeen(rs, |rs|);
    BuiltFrames(s, c, o, |Indices(c)|);
  }

  lemma {:induction false} SameWithoutDt<N, V>(names: seq<N>, a: seq<Frame<N, V>>, b: seq<Frame<N, V>>, n: nat)
    requires n <= |a| == |b| && forall i :: 0 <= i < |a| ==> a[i].values == b[i].values
    ensures FramesRecs(names, a, false, n) == FramesRecs(names, b, false, n)
  {
    if n > 0 { SameWithoutDt(names, a, b, n - 1); }
  }

  predicate ScanFits(o: Options) {
    InRange(o, Given(o.scan)) && 0 <= o.scan <= MAX_DT
  }

  lemma {:induction false} RereadValid<N, V>(s: Schema<N, V>, tc: TestCase<N, V>, o: Options)
    requires Valid(s, tc) && |tc.frames| > 0 && o.range.Given?
    ensures Valid(s, TestCase(tc.shared, Reread(o, tc.frames, false))) <==> 0 <= o.scan <= MAX_DT
  {
    var again := Reread(o, tc.frames, false);
    assert again[0].dt == Given(o.scan);
    forall i | 0 <= i < |again|
      ensures FrameValid(s, again[i]) <==> 0 <= o.scan <= MAX_DT
    {
      assert FrameValid(s, tc.frames[i]);
    }
  }

  lemma {:induction false} ScanInRange<N, V>(o: Options, frames: seq<Frame<N, V>>, n: nat)
    requires 0 < n <= |frames| && o.range.Given?
    ensures AllInRange(o, Reread(o, frames, false), n) <==> InRange(o, Given(o.scan))
  {
    if n > 1 { ScanInRange(o, frames, n - 1); }
  }

  /** With a range and without delta_t, a second pass agrees exactly when the scan period is acceptable. */
  lemma {:induction false} WithoutDt<N, V>(s: Schema<N, V>, tc: TestCase<N, V>, o: Options)
    requires |s.fields| > 0 && Valid(s, tc) && |tc.frames| > 0
    ensures var out := CanonicalRecs(s, tc, false);
            Canonicalized(s, out, o, false) == if o.range.Absent? || ScanFits(o) then Done(out) else Raised
  {
    var again := Reread(o, tc.frames, false);
    ParseCanonical(s, tc, o, false);
    SameWithoutDt(s.fields, tc.frames, again, |tc.frames|);
    if o.range.Given? {
      RereadValid(s, tc, o);
      ScanInRange(o, tc.frames, |tc.frames|);
    } else {
      RangeFree(s, tc, o);
    }
  }

  lemma {:induction false} RangeFree<N, V>(s: Schema<N, V>, tc: TestCase<N, V>, o: Options)
    requires Valid(s, tc) && o.range.Absent?
    ensures var again := Reread(o, tc.frames, false);
            AllInRange(o, again, |again|) && Valid(s, TestCase(tc.shared, again))
  {
    var again := Reread(o, tc.frames, false);
    ExplicitInRange(o, again, |again|);
    forall i | 0 <= i < |again|
      ensures FrameValid(s, again[i])
    {
      assert FrameValid(s, tc.frames[i]);
    }
  }

  /** With a range and delta_t, the frame that stands for a text without frame records is read back with the
      scan period, which the first pass did not list. */
  lemma {:induction false} LoneFrame<N, V>(s: Schema<N, V>, tc: TestCase<N, V>, o: Options)
    requires |s.fields| > 0 && Valid(s, tc) && o.range.Given? && |tc.frames| == 1 && tc.frames[0].dt.Absent?
    ensures var out := CanonicalRecs(s, tc, true);
            Canonicalized(s, out, o, true) != Done(out)
  {
    var again := Reread(o, tc.frames, true);
    ParseCanonical(s, tc, o, true);
    assert FramesRecs(s.fields, tc.frames, true, 0) == FramesRecs(s.fields, again, true, 0) == [];
    assert |FramesRecs(s.fields, tc.frames, true, 1)| + 1 == |FramesRecs(s.fields, again, true, 1)|;
  }

  // ----- inputs for which a second pass differs

  /** The defaults pass the validation. */
  predicate DefaultsOk<N(==), V>(s: Schema<N, V>) {
    forall i :: 0 <= i < |s.fields| ==> s.valueOk(s.fields[i], s.default(s.fields[i]))
  }

  /** No records at all: one frame of defaults. */
  lemma {:induction false} NothingParses<N, V>(s: Schema<N, V>, o: Options)
    requires DefaultsOk(s)
    ensures Parse(s, [], o) == Done(TestCase(map[], [Frame(Initial(s, map[]), Absent)]))
  {
    var c: Collected<N, V> := AddAll(Nothing(), [], 0);
    assert Indices(c) == {} == Upto(0);
    assert BuildFrames(s, c, o, 0) == Done([]);
    InitialValid(s, Absent);
  }

  lemma {:induction false} InitialValid<N, V>(s: Schema<N, V>, dt: Maybe<int>)
    requires DefaultsOk(s) && (dt.Given? ==> 0 <= dt.value <= MAX_DT)
    ensures FrameValid(s, Frame(Initial(s, map[]), dt))
  {
    forall n | n in s.fields ensures s.valueOk(n, s.default(n)) {
      var i :| 0 <= i < |s.fields| && s.fields[i] == n;
    }
  }

  /** One field of one frame, and its delta_t. */
  function OneFrame<N, V>(n: N, v: V, dt: int): seq<Rec<N, V>> {
    [FieldRec(0, n, v), DtRec(0, dt)]
  }

  lemma {:induction false} OneFrameParses<N, V>(s: Schema<N, V>, n: N, v: V, dt: int, o: Options)
    requires DefaultsOk(s) && n in s.fields && s.valueOk(n, v) && 0 <= dt <= MAX_DT && InRange(o, Given(dt))
    ensures Parse(s, OneFrame(n, v, dt), o) == Done(TestCase(map[], [Frame(Initial(s, map[])[n := v], Given(dt))]))
  {
    var c := OneCollected<N, V>(n, v, dt);
    OneFrameCollects(n, v, dt);
    assert Inherited(s, c, 1) == Initial(s, map[])[n := v];
    BuildOne(s, c, o);
    InitialValid(s, Given(dt));
    assert FrameValid(s, Frame(Initial(s, map[])[n := v], Given(dt)));
  }

  function OneCollected<N, V>(n: N, v: V, dt: int): Collected<N, V> {
    Collected(map[], map[0 := map[n := v]], map[0 := dt])
  }

  lemma {:induction false} OneFrameCollects<N, V>(n: N, v: V, dt: int)
    ensures AddAll(Nothing(), OneFrame(n, v, dt), 2) == OneCollected(n, v, dt)
    ensures Indices(OneCollected(n, v, dt)) == Upto(1)
  {
    var rs := OneFrame(n, v, dt);
    assert AddAll(Nothing(), rs, 0) == Nothing();
    assert AddAll(Nothing(), rs, 1) == Collected(map[], map[0 := map[n := v]], map[]);
    assert Upto(0) == {};
  }

  lemma {:induction false} BuildOne<N, V>(s: Schema<N, V>, c: Collected<N, V>, o: Options)
    requires InRange(o, DtAt(c, o, 0))
    ensures BuildFrames(s, c, o, 1) == Done([Frame(Inherited(s, c, 1), DtAt(c, o, 0))])
  {
    var f := Frame(Inherited(s, c, 1), DtAt(c, o, 0));
    assert BuildFrames(s, c, o, 0) == Done([]);
    assert [] + [f] == [f];
  }

  // ----- a schema without frame fields

  lemma {:induction false} NoFieldsCollected<N, V>(s: Schema<N, V>, rs: seq<Rec<N, V>>, n: nat)
    requires s.fields == [] && Declared(s, rs) && n <= |rs|
    ensures AddAll(Nothing(), rs, n).raw == map[]
  {
    if n > 0 { NoFieldsCollected(s, rs, n - 1); }
  }

  lemma {:induction false} NoFieldsInherited<N, V>(s: Schema<N, V>, c: Collected<N, V>, k: nat)
    requires s.fields == [] && c.raw == map[]
    ensures Inherited(s, c, k) == map[]
  {
    if k > 0 { NoFieldsInherited(s, c, k - 1); }
  }

  /** Without frame fields, every frame of a text with frame records has a delta_t of its own. */
  lemma {:induction false} NoFieldsParsed<N, V>(s: Schema<N, V>, rs: seq<Rec<N, V>>, o: Options)
    requires s.fields == [] && Declared(s, rs) && Parse(s, rs, o).Done? && HasFrames(rs, |rs|)
    ensures var fs := Parse(s, rs, o).value.frames;
            forall i :: 0 <= i < |fs| ==> fs[i].values == map[] && fs[i].dt.Given? && InRange(o, fs[i].dt)
  {
    var c := AddAll(Nothing(), rs, |rs|);
    IndicesSeen(rs, |rs|);
    NoFieldsCollected(s, rs, |rs|);
    BuiltFrames(s, c, o, |Indices(c)|);
    var fs := Parse(s, rs, o).value.frames;
    forall i | 0 <= i < |fs|
      ensures fs[i].values == map[] && fs[i].dt.Given? && InRange(o, fs[i].dt)
    {
      NoFieldsInherited(s, c, i + 1);
      assert i in Upto(|Indices(c)|);
    }
  }

  lemma {:induction false} AddDts<N, V>(shared: map<N, V>, frames: seq<Frame<N, V>>, withDt: bool, n: nat)
    requires n <= |frames|
    ensures var rs := FramesRecs<N, V>([], frames, withDt, n);
            AddAll(Collected(shared, map[], map[]), rs, |rs|) == Collected(shared, map[], DtsOf(frames, withDt, n))
  {
    if n > 0 {
      AddDts(shared, frames, withDt, n - 1);
      AddInTurn(Collected(shared, map[], map[]), FramesRecs<N, V>([], frames, withDt, n - 1),
                Collected(shared, map[], DtsOf(frames, withDt, n - 1)), FrameRecs<N, V>([], n - 1, frames[n - 1], withDt),
                Collected(shared, map[], DtsOf(frames, withDt, n)));
    }
  }

  lemma {:induction false} NoFieldsCanonical<N, V>(s: Schema<N, V>, tc: TestCase<N, V>, withDt: bool)
    requires s.fields == [] && forall n :: n in tc.shared ==> n in s.shared
    ensures var rs := CanonicalRecs(s, tc, withDt);
            AddAll(Nothing(), rs, |rs|) == Collected(tc.shared, map[], DtsOf(tc.frames, withDt, |tc.frames|))
  {
    AddShared(Nothing(), s.shared, tc.shared, |s.shared|);
    WithinAll(tc.shared, s.shared);
    AddDts(tc.shared, tc.frames, withDt, |tc.frames|);
    AddInTurn(Nothing(), SharedRecs(s.shared, tc.shared, |s.shared|), Collected(tc.shared, map[], map[]),
              FramesRecs(s.fields, tc.frames, withDt, |tc.frames|),
              Collected(tc.shared, map[], DtsOf(tc.frames, withDt, |tc.frames|)));
  }

  lemma {:induction false} NoDts<N, V>(frames: seq<Frame<N, V>>, withDt: bool, n: nat)
    requires n <= |frames| && forall i :: 0 <= i < n ==> !(withDt && frames[i].dt.Given?)
    ensures DtsOf(frames, withDt, n) == map[] && FramesRecs<N, V>([], frames, withDt, n) == []
  {
    if n > 0 { NoDts(frames, withDt, n - 1); }
  }

  /** Without frame fields and listed delta_t, a second pass sees the shared records only. */
  lemma {:induction false} NoFieldsNoDts<N, V>(s: Schema<N, V>, tc: TestCase<N, V>, o: Options, withDt: bool)
    requires s.fields == [] && Valid(s, tc) && forall i :: 0 <= i < |tc.frames| ==> !(withDt && tc.frames[i].dt.Given?)
    ensures var out := CanonicalRecs(s, tc, withDt);
            Canonicalized(s, out, o, withDt) == Done(out)
  {
    var out := CanonicalRecs(s, tc, withDt);
    NoFieldsCanonical(s, tc, withDt);
    NoDts(tc.frames, withDt, |tc.frames|);
    var lone := [Frame(Initial(s, tc.shared), Absent)];
    assert Indices(AddAll(Nothing(), out, |out|)) == {} == Upto(0);
    assert BuildFrames(s, AddAll(Nothing(), out, |out|), o, 0) == Done([]);
    assert FrameValid(s, lone[0]);
    NoDts(lone, withDt, 1);
  }

  lemma {:induction false} BuildDts<N, V>(s: Schema<N, V>, c: Collected<N, V>, o: Options, frames: seq<Frame<N, V>>, n: nat)
    requires n <= |frames| && s.fields == [] && c.raw == map[] && c.dts == DtsOf(frames, true, |frames|)
    requires forall i :: 0 <= i < |frames| ==> frames[i].values == map[] && frames[i].dt.Given? && InRange(o, frames[i].dt)
    ensures BuildFrames(s, c, o, n) == Done(frames[..n])
  {
    if n > 0 {
      BuildDts(s, c, o, frames, n - 1);
      NoFieldsInherited(s, c, n);
      DtsOfAt(frames, true, |frames|, n - 1);
      assert frames[..n] == frames[..n - 1] + [frames[n - 1]];
    }
  }

  lemma {:induction false} DtKeys<N, V>(frames: seq<Frame<N, V>>)
    requires forall i :: 0 <= i < |frames| ==> frames[i].dt.Given?
    ensures DtsOf(frames, true, |frames|).Keys == Upto(|frames|)
  {
    forall k: nat
      ensures k in DtsOf(frames, true, |frames|) <==> k in Upto(|frames|)
    {
      KeysBelow(frames, true, |frames|, k);
      if k < |frames| { DtsOfAt(frames, true, |frames|, k); }
    }
  }

  /** Without frame fields, frames with a delta_t are read back as they were. */
  lemma {:induction false} NoFieldsDts<N, V>(s: Schema<N, V>, tc: TestCase<N, V>, o: Options)
    requires s.fields == [] && Valid(s, tc) && |tc.frames| > 0
    requires forall i :: 0 <= i < |tc.frames| ==> tc.frames[i].values == map[] && tc.frames[i].dt.Given? && InRange(o, tc.frames[i].dt)
    ensures Parse(s, CanonicalRecs(s, tc, true), o) == Done(tc)
  {
    NoFieldsCanonical(s, tc, true);
    var c := Collected(tc.shared, map[], DtsOf(tc.frames, true, |tc.frames|));
    DtKeys(tc.frames);
    assert Indices(c) == Upto(|tc.frames|);
    BuildDts(s, c, o, tc.frames, |tc.frames|);
    assert tc.frames[..|tc.frames|] == tc.frames;
  }

  lemma {:induction false} NoFieldsIdempotent<N, V>(s: Schema<N, V>, rs: seq<Rec<N, V>>, o: Options, withDt: bool)
    requires s.fields == [] && Declared(s, rs) && Parse(s, rs, o).Done?
    ensures var out := CanonicalRecs(s, Parse(s, rs, o).value, withDt);
            Canonicalized(s, out, o, withDt) == Done(out)
  {
    var tc := Parse(s, rs, o).value;
    Parsed(s, rs, o);
    if withDt && HasFrames(rs, |rs|) {
      NoFieldsParsed(s, rs, o);
      NoFieldsDts(s, tc, o);
    } else {
      NoFieldsNoDts(s, tc, o, withDt);
    }
  }

  // ----- when a second pass changes nothing

  /** A caller can see this before the call: there are no frame fields, or no range of delta_t; or else, with
      delta_t listed, the text has a frame record, and without, the scan period is acceptable itself. */
  predicate Stable<N, V>(s: Schema<N, V>, rs: seq<Rec<N, V>>, o: Options, withDt: bool) {
    s.fields == [] || o.range.Absent? || if withDt then HasFrames(rs, |rs|) else ScanFits(o)
  }

  /** `canonicalize` is idempotent on an accepted input exactly when the input is stable. */
  lemma {:induction false} IdempotentExactly<N, V>(s: Schema<N, V>, rs: seq<Rec<N, V>>, o: Options, withDt: bool)
    requires Declared(s, rs) && Parse(s, rs, o).Done?
    ensures var out := CanonicalRecs(s, Parse(s, rs, o).value, withDt);
            Canonicalized(s, out, o, withDt) == Done(out) <==> Stable(s, rs, o, withDt)
  {
    var tc := Parse(s, rs, o).value;
    Parsed(s, rs, o);
    if s.fields == [] {
      NoFieldsIdempotent(s, rs, o, withDt);
    } else if !withDt {
      WithoutDt(s, tc, o);
    } else if o.range.Absent? || HasFrames(rs, |rs|) {
      RoundTrip(s, tc, o);
    } else {
      LoneFrame(s, tc, o);
    }
  }

  // ----- the loops of parse_testcase

  method BuildInTurn<N(==), V>(s: Schema<N, V>, c: Collected<N, V>, o: Options, n: nat) returns (r: Outcome<seq<Frame<N, V>>>)
    ensures r == BuildFrames(s, c, o, n)
  {
    var frames := [];
    var previous := Initial(s, c.shared);
    var k := 0;
    while k < n
      invariant k <= n
      invariant previous == Inherited(s, c, k)
      invariant BuildFrames(s, c, o, k) == Done(frames)
    {
      var values := previous + RawAt(c, k);
      var dt := DtAt(c, o, k);
      if !InRange(o, dt) {
        BuildRaises(s, c, o, k + 1, n);
        return Raised;
      }
      frames := frames + [Frame(values, dt)];
      previous, k := values, k + 1;
    }
    return Done(frames);
  }

  lemma {:induction false} BuildRaises<N, V>(s: Schema<N, V>, c: Collected<N, V>, o: Options, k: nat, n: nat)
    requires k <= n && BuildFrames(s, c, o, k).Raised?
    ensures BuildFrames(s, c, o, n).Raised?
  {
    if k < n { BuildRaises(s, c, o, k, n - 1); }
  }

  method AddOne<N(==), V>(c: Collected<N, V>, r: Rec<N, V>) returns (d: Collected<N, V>)
    ensures d == Add(c, r)
  {
    match r
    case SharedRec(n, v) =>
      d := c.(shared := c.shared[n := v]);
    case FieldRec(k, n, v) =>
      var row := if k in c.raw then c.raw[k] else map[];
      d := c.(raw := c.raw[k := row[n := v]]);
    case DtRec(k, dt) =>
      d := c.(dts := c.dts[k := dt]);
  }

  method CollectRecords<N(==), V>(rs: seq<Rec<N, V>>) returns (c: Collected<N, V>)
    ensures c == AddAll(Nothing(), rs, |rs|)
  {
    c := Nothing();
    var i := 0;
    while i < |rs|
      invariant i <= |rs| && c == AddAll(Nothing(), rs, i)
    {
      c := AddOne(c, rs[i]);
      i := i + 1;
    }
  }

  method ParseRecords<N(==), V>(s: Schema<N, V>, rs: seq<Rec<N, V>>, o: Options) returns (r: Outcome<TestCase<N, V>>)
    ensures r == Parse(s, rs, o)
  {
    var c := CollectRecords(rs);
    var indices := Indices(c);
    if indices != Upto(|indices|) {
      return Raised;
    }
    var built := BuildInTurn(s, c, o, |indices|);
    if built.Raised? {
      return Raised;
    }
    var frames := if built.value == [] then [Frame(Initial(s, c.shared), Absent)] else built.value;
    return Checked(s, TestCase(c.shared, frames));
  }

  // ----- the loops of canonical

  method ListFrame<N(==), V>(names: seq<N>, k: nat, f: Frame<N, V>, withDt: bool) returns (rs: seq<Rec<N, V>>)
    ensures rs == FrameRecs(names, k, f, withDt)
  {
    rs := [];
    var i := 0;
    while i < |names|
      invariant i <= |names| && rs == FieldRecs(names, k, f.values, i)
    {
      if names[i] in f.values {
        rs := rs + [FieldRec(k, names[i], f.values[names[i]])];
      }
      i := i + 1;
    }
    if withDt && f.dt.Given? {
      rs := rs + [DtRec(k, f.dt.value)];
    }
  }

  method ListRecords<N(==), V>(s: Schema<N, V>, tc: TestCase<N, V>, withDt: bool) returns (rs: seq<Rec<N, V>>)
    ensures rs == CanonicalRecs(s, tc, withDt)
  {
    rs := [];
    var i := 0;
    while i < |s.shared|
      invariant i <= |s.shared| && rs == SharedRecs(s.shared, tc.shared, i)
    {
      if s.shared[i] in tc.shared {
        rs := rs + [SharedRec(s.shared[i], tc.shared[s.shared[i]])];
      }
      i := i + 1;
    }
    ghost var listed := rs;
    var k := 0;
    while k < |tc.frames|
      invariant k <= |tc.frames| && rs == listed + FramesRecs(s.fields, tc.frames, withDt, k)
    {
      var one := ListFrame(s.fields, k, tc.frames[k], withDt);
      rs := rs + one;
      k := k + 1;
    }
  }
}
