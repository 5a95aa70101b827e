/** `parse_testcase`, `TestCase.canonical` and `canonicalize` of fuzzer/corpus/frames.py on texts. */
module FrameText {
  import opened Wrappers
  import opened FrameCases
  import opened RecordText

  const DT_NAME: Text := "__DT"
  const INIT_NAME: Text := "__INIT"
  const TIME_TOKEN: Text := "TIME"
  const ENUM_TOKEN: Text := "ENUM"
  const COLD_PROFILE: Text := "cold"

  /** The declared fields, with `token` the type printed for a name. Left open: `str.upper`, the delta_t texts
      other than plain decimal numbers, the defaults, and `_validate_value`. */
  datatype Abi = Abi(fields: seq<Text>, shared: seq<Text>, token: Text -> Text, upper: Text -> Text,
                     otherDt: Text -> Outcome<int>, default: Text -> Text, valueOk: (Text, Text) -> bool)

  function SchemaOf(abi: Abi): Schema<Text, Text> {
    Schema(abi.fields, abi.shared, abi.default, abi.valueOk)
  }

  /** A field name or a type token: no comma or dot, trimmed, on one line. */
  predicate Plain(s: Text) {
    s != [] && Lacks(s, ',') && Lacks(s, '.') && Clean(s)
  }

  predicate NamesOk(abi: Abi, names: seq<Text>, reserved: Text) {
    && (forall i :: 0 <= i < |names| ==> Plain(names[i]) && Plain(abi.token(names[i])) && abi.upper(names[i]) != reserved)
    && forall i, j :: 0 <= i < j < |names| ==> abi.upper(names[i]) != abi.upper(names[j])
  }

  /** Names differ without regard to case and are not reserved. */
  ghost predicate WellFormed(abi: Abi) {
    && NamesOk(abi, abi.fields, DT_NAME)
    && NamesOk(abi, abi.shared, INIT_NAME)
    && abi.upper(DT_NAME) == DT_NAME
    && forall i :: 0 <= i < |abi.fields| ==> Clean(abi.default(abi.fields[i]))
  }

  // ----- printing

  function Print(abi: Abi, r: Rec<Text, Text>): Text {
    match r
    case SharedRec(n, v) => Line(n, abi.token(n), v)
    case FieldRec(k, n, v) => Line(Decimal(k) + ['.'] + n, abi.token(n), v)
    case DtRec(k, dt) => Line(Decimal(k) + ['.'] + DT_NAME, TIME_TOKEN, Decimal(if dt < 0 then 0 else dt))
  }

  function PrintAll(abi: Abi, rs: seq<Rec<Text, Text>>): seq<Text> {
    seq(|rs|, i requires 0 <= i < |rs| => Print(abi, rs[i]))
  }

  function PrintText(abi: Abi, rs: seq<Rec<Text, Text>>): Text {
    Unlines(PrintAll(abi, rs), |rs|)
  }

  // ----- reading

  /** The name whose upper case is the key: of several, the last. */
  function Lookup(abi: Abi, names: seq<Text>, key: Text, n: nat): Maybe<Text>
    requires n <= |names|
  {
    if n == 0 then Absent
    else if abi.upper(names[n - 1]) == key then Given(names[n - 1])
    else Lookup(abi, names, key, n - 1)
  }

  /** An explicit type token must match; an empty one is accepted. */
  predicate TypeOk(abi: Abi, ty: Text, expected: Text) {
    ty == [] || abi.upper(ty) == [] || abi.upper(ty) == abi.upper(expected)
  }

  function ReadDt(abi: Abi, value: Text): Outcome<int> {
    if IsDecimal(value) then Done(Value(value, |value|)) else abi.otherDt(value)
  }

  function ReadShared(abi: Abi, name: Text, ty: Text, value: Text): Outcome<Maybe<Rec<Text, Text>>> {
    if abi.upper(name) == INIT_NAME then
      if TypeOk(abi, ty, ENUM_TOKEN) && value == COLD_PROFILE then Done(Absent) else Raised
    else
      match Lookup(abi, abi.shared, abi.upper(name), |abi.shared|)
      case Absent => Raised
      case Given(n) => if TypeOk(abi, ty, abi.token(n)) then Done(Given(SharedRec(n, value))) else Raised
  }

  function ReadCycle(abi: Abi, k: nat, name: Text, ty: Text, value: Text): Outcome<Maybe<Rec<Text, Text>>> {
    if abi.upper(name) == DT_NAME then
      if !TypeOk(abi, ty, TIME_TOKEN) then Raised
      else
        match ReadDt(abi, value)
        case Raised => Raised
        case Done(dt) => Done(Given(DtRec(k, dt)))
    else
      match Lookup(abi, abi.fields, abi.upper(name), |abi.fields|)
      case Absent => Raised
      case Given(n) => if TypeOk(abi, ty, abi.token(n)) then Done(Given(FieldRec(k, n, value))) else Raised
  }

  /** The trimmed parts of a record: its name, type and value. */
  function ReadParts(abi: Abi, name: Text, ty: Text, value: Text): Outcome<Maybe<Rec<Text, Text>>> {
    if name == [] then Raised
    else
      match SplitCycle(name)
      case (Given(k), field) => ReadCycle(abi, k, field, ty, value)
      case (Absent, _) => ReadShared(abi, name, ty, value)
  }

  /** One line: blank lines and the init record yield nothing. */
  function ReadLine(abi: Abi, raw: Text): Outcome<Maybe<Rec<Text, Text>>> {
    var s := Strip(raw);
    if s == [] then Done(Absent)
    else
      var a := Find(s, ',', 0);
      if a == |s| then Raised
      else
        var b := Find(s, ',', a + 1);
        if b == |s| then Raised else ReadParts(abi, Strip(s[..a]), Strip(s[a + 1..b]), Strip(s[b + 1..]))
  }

  function ReadEach(abi: Abi, lines: seq<Text>): seq<Outcome<Maybe<Rec<Text, Text>>>> {
    seq(|lines|, i requires 0 <= i < |lines| => ReadLine(abi, lines[i]))
  }

  /** The records that the first n lines yield, unless one of them raises. */
  function Gather<R>(outs: seq<Outcome<Maybe<R>>>, n: nat): Outcome<seq<R>>
    requires n <= |outs|
  {
    if n == 0 then Done([])
    else
      match Gather(outs, n - 1)
      case Raised => Raised
      case Done(rs) =>
        match outs[n - 1]
        case Raised => Raised
        case Done(Absent) => Done(rs)
        case Done(Given(r)) => Done(rs + [r])
  }

  function ReadText(abi: Abi, text: Text): Outcome<seq<Rec<Text, Text>>> {
    var outs := ReadEach(abi, SplitLines(text));
    Gather(outs, |outs|)
  }

  function ParseText(abi: Abi, text: Text, o: Options): Outcome<TestCase<Text, Text>> {
    match ReadText(abi, text)
    case Raised => Raised
    case Done(rs) => Parse(SchemaOf(abi), rs, o)
  }

  function CanonicalText(abi: Abi, tc: TestCase<Text, Text>, withDt: bool): Text {
    PrintText(abi, CanonicalRecs(SchemaOf(abi), tc, withDt))
  }

  function Canonicalize(abi: Abi, text: Text, o: Options, withDt: bool): Outcome<Text> {
    match ParseText(abi, text, o)
    case Raised => Raised
    case Done(tc) => Done(CanonicalText(abi, tc, withDt))
  }

  // ----- a printed record is read back

  predicate Printable(abi: Abi, r: Rec<Text, Text>) {
    match r
    case SharedRec(n, v) => n in abi.shared && Clean(v)
    case FieldRec(_, n, v) => n in abi.fields && Clean(v)
    case DtRec(_, dt) => dt >= 0
  }

  lemma {:induction false} LookupFinds(abi: Abi, names: seq<Text>, reserved: Text, i: nat, n: nat)
    requires NamesOk(abi, names, reserved) && i < n <= |names|
    ensures Lookup(abi, names, abi.upper(names[i]), n) == Given(names[i])
  {
    if i < n - 1 { LookupFinds(abi, names, reserved, i, n - 1); }
  }

  lemma {:induction false} LookupIn(abi: Abi, names: seq<Text>, key: Text, n: nat)
    requires n <= |names|
    ensures Lookup(abi, names, key, n).Given? ==> Lookup(abi, names, key, n).value in names
  {
    if n > 0 { LookupIn(abi, names, key, n - 1); }
  }

  lemma {:induction false} LineClean(name: Text, ty: Text, value: Text)
    requires name != [] && Clean(name) && Clean(ty) && Clean(value)
    ensures Clean(Line(name, ty, value)) && Line(name, ty, value) != []
  {
    var s := Line(name, ty, value);
    assert s[0] == name[0];
    assert s[|s| - 1] == if value == [] then ',' else value[|value| - 1];
  }

  /** A line of clean parts is read as these parts. */
  lemma {:induction false} ReadsParts(abi: Abi, name: Text, ty: Text, value: Text)
    requires name != [] && Clean(name) && Clean(ty) && Clean(value) && Lacks(name, ',') && Lacks(ty, ',')
    ensures ReadLine(abi, Line(name, ty, value)) == ReadParts(abi, name, ty, value)
  {
    LineClean(name, ty, value);
    CutLine(name, ty, value);
    assert Strip(name) == name && Strip(ty) == ty && Strip(value) == value;
  }

  lemma {:induction false} PrefixedClean(k: nat, name: Text)
    requires name != [] && Clean(name) && Lacks(name, ',')
    ensures var s := Decimal(k) + ['.'] + name;
            s != [] && Clean(s) && Lacks(s, ',')
  {
    var s := Decimal(k) + ['.'] + name;
    assert s[0] == Decimal(k)[0] && s[|s| - 1] == name[|name| - 1];
  }

  lemma {:induction false} DecimalClean(n: nat)
    ensures Clean(Decimal(n)) && IsDecimal(Decimal(n)) && Value(Decimal(n), |Decimal(n)|) == n
  {
    ValueOfDecimal(n);
    DecimalIsDecimal(n);
  }

  lemma {:induction false} ConstantsPlain()
    ensures DT_NAME != [] && Clean(DT_NAME) && Lacks(DT_NAME, ',') && Clean(TIME_TOKEN) && Lacks(TIME_TOKEN, ',')
  {}

  lemma {:induction false} ReadsShared(abi: Abi, i: nat, value: Text)
    requires WellFormed(abi) && i < |abi.shared| && Clean(value)
    ensures ReadLine(abi, Print(abi, SharedRec(abi.shared[i], value))) == Done(Given(SharedRec(abi.shared[i], value)))
  {
    var n := abi.shared[i];
    ReadsParts(abi, n, abi.token(n), value);
    SplitPlain(n);
    LookupFinds(abi, abi.shared, INIT_NAME, i, |abi.shared|);
  }

  lemma {:induction false} ReadsField(abi: Abi, k: nat, i: nat, value: Text)
    requires WellFormed(abi) && i < |abi.fields| && Clean(value)
    ensures ReadLine(abi, Print(abi, FieldRec(k, abi.fields[i], value))) == Done(Given(FieldRec(k, abi.fields[i], value)))
  {
    var n := abi.fields[i];
    PrefixedClean(k, n);
    ReadsParts(abi, Decimal(k) + ['.'] + n, abi.token(n), value);
    SplitPrefixed(k, n);
    LookupFinds(abi, abi.fields, DT_NAME, i, |abi.fields|);
  }

  lemma {:induction false} ReadsDt(abi: Abi, k: nat, dt: nat)
    requires WellFormed(abi)
    ensures ReadLine(abi, Print(abi, DtRec(k, dt))) == Done(Given(DtRec(k, dt)))
  {
    ConstantsPlain();
    PrefixedClean(k, DT_NAME);
    DecimalClean(dt);
    ReadsParts(abi, Decimal(k) + ['.'] + DT_NAME, TIME_TOKEN, Decimal(dt));
    SplitPrefixed(k, DT_NAME);
  }

  /** One line of a record goes back to the record, and breaks no line. */
  lemma {:induction false} ReadsPrinted(abi: Abi, r: Rec<Text, Text>)
    requires WellFormed(abi) && Printable(abi, r)
    ensures ReadLine(abi, Print(abi, r)) == Done(Given(r)) && Unbroken(Print(abi, r))
  {
    match r
    case SharedRec(n, v) =>
      var i :| 0 <= i < |abi.shared| && abi.shared[i] == n;
      ReadsShared(abi, i, v);
      LineClean(n, abi.token(n), v);
    case FieldRec(k, n, v) =>
      var i :| 0 <= i < |abi.fields| && abi.fields[i] == n;
      ReadsField(abi, k, i, v);
      PrefixedClean(k, n);
      LineClean(Decimal(k) + ['.'] + n, abi.token(n), v);
    case DtRec(k, dt) =>
      ReadsDt(abi, k, dt);
      ConstantsPlain();
      PrefixedClean(k, DT_NAME);
      DecimalClean(dt);
      LineClean(Decimal(k) + ['.'] + DT_NAME, TIME_TOKEN, Decimal(dt));
  }

  predicate AllPrintable(abi: Abi, rs: seq<Rec<Text, Text>>) {
    forall i :: 0 <= i < |rs| ==> Printable(abi, rs[i])
  }

  lemma {:induction false} GatherAll<R>(outs: seq<Outcome<Maybe<R>>>, rs: seq<R>, n: nat)
    requires n <= |rs| <= |outs| && forall i :: 0 <= i < |rs| ==> outs[i] == Done(Given(rs[i]))
    ensures Gather(outs, n) == Done(rs[..n])
  {
    if n > 0 {
      GatherAll(outs, rs, n - 1);
      assert rs[..n] == rs[..n - 1] + [rs[n - 1]];
    }
  }

  lemma {:induction false} GatherThenBlank<R>(outs: seq<Outcome<Maybe<R>>>, rs: seq<R>)
    requires |outs| == |rs| + 1 && (forall i :: 0 <= i < |rs| ==> outs[i] == Done(Given(rs[i]))) && outs[|rs|] == Done(Absent)
    ensures Gather(outs, |outs|) == Done(rs)
  {
    GatherAll(outs, rs, |rs|);
    assert rs[..|rs|] == rs;
  }

  /** The outcomes of the printed lines, with the blank line behind the last. */
  lemma {:induction false} PrintedOutcomes(abi: Abi, rs: seq<Rec<Text, Text>>)
    requires WellFormed(abi) && AllPrintable(abi, rs)
    ensures var outs := ReadEach(abi, PrintAll(abi, rs) + [[]]);
            && |outs| == |rs| + 1
            && (forall i :: 0 <= i < |rs| ==> outs[i] == Done(Given(rs[i])))
            && outs[|rs|] == Done(Absent)
    ensures forall i :: 0 <= i < |rs| ==> Unbroken(PrintAll(abi, rs)[i])
  {
    forall i | 0 <= i < |rs|
      ensures ReadEach(abi, PrintAll(abi, rs) + [[]])[i] == Done(Given(rs[i])) && Unbroken(PrintAll(abi, rs)[i])
    {
      assert (PrintAll(abi, rs) + [[]])[i] == Print(abi, rs[i]);
      ReadsPrinted(abi, rs[i]);
    }
    assert (PrintAll(abi, rs) + [[]])[|rs|] == [];
  }

  /** The text of a list of records is read as that list. */
  lemma {:induction false} ReadsText(abi: Abi, rs: seq<Rec<Text, Text>>)
    requires WellFormed(abi) && AllPrintable(abi, rs)
    ensures ReadText(abi, PrintText(abi, rs)) == Done(rs)
  {
    PrintedOutcomes(abi, rs);
    SplitUnlines(PrintAll(abi, rs));
    GatherThenBlank(ReadEach(abi, PrintAll(abi, rs) + [[]]), rs);
  }

  // ----- the values of a testcase stay clean

  predicate CleanMap(m: map<Text, Text>) {
    forall x :: x in m ==> Clean(m[x])
  }

  predicate CleanFrames(fs: seq<Frame<Text, Text>>) {
    forall i :: 0 <= i < |fs| ==> CleanMap(fs[i].values)
  }

  predicate CleanCase(tc: TestCase<Text, Text>) {
    CleanMap(tc.shared) && CleanFrames(tc.frames)
  }

  lemma {:induction false} SharedPrintable(abi: Abi, m: map<Text, Text>, n: nat)
    requires n <= |abi.shared| && CleanMap(m)
    ensures AllPrintable(abi, SharedRecs(abi.shared, m, n))
  {
    if n > 0 { SharedPrintable(abi, m, n - 1); }
  }

  lemma {:induction false} FieldsPrintable(abi: Abi, k: nat, m: map<Text, Text>, n: nat)
    requires n <= |abi.fields| && CleanMap(m)
    ensures AllPrintable(abi, FieldRecs(abi.fields, k, m, n))
  {
    if n > 0 { FieldsPrintable(abi, k, m, n - 1); }
  }

  /** Clean values and a delta_t that is not negative. */
  predicate FrameWritable(f: Frame<Text, Text>) {
    CleanMap(f.values) && (f.dt.Given? ==> f.dt.value >= 0)
  }

  lemma {:induction false} FramesPrintable(abi: Abi, frames: seq<Frame<Text, Text>>, withDt: bool, n: nat)
    requires n <= |frames| && forall i :: 0 <= i < |frames| ==> FrameWritable(frames[i])
    ensures AllPrintable(abi, FramesRecs(abi.fields, frames, withDt, n))
  {
    if n > 0 {
      FramesPrintable(abi, frames, withDt, n - 1);
      FramePrintable(abi, n - 1, frames[n - 1], withDt);
      PrintableAppend(abi, FramesRecs(abi.fields, frames, withDt, n - 1), FrameRecs(abi.fields, n - 1, frames[n - 1], withDt));
    }
  }

  lemma {:induction false} FramesWritable(abi: Abi, tc: TestCase<Text, Text>)
    requires CleanCase(tc) && Valid(SchemaOf(abi), tc)
    ensures forall i :: 0 <= i < |tc.frames| ==> FrameWritable(tc.frames[i])
  {
    forall i | 0 <= i < |tc.frames| ensures FrameWritable(tc.frames[i]) {
      FrameKept(abi, tc, i);
    }
  }

  lemma {:induction false} FrameKept(abi: Abi, tc: TestCase<Text, Text>, i: nat)
    requires i < |tc.frames| && CleanCase(tc) && Valid(SchemaOf(abi), tc)
    ensures CleanMap(tc.frames[i].values)
    ensures tc.frames[i].dt.Given? ==> 0 <= tc.frames[i].dt.value <= MAX_DT
  {
    assert FrameValid(SchemaOf(abi), tc.frames[i]);
  }

  lemma {:induction false} FramePrintable(abi: Abi, k: nat, f: Frame<Text, Text>, withDt: bool)
    requires FrameWritable(f)
    ensures AllPrintable(abi, FrameRecs(abi.fields, k, f, withDt))
  {
    var rs := FieldRecs(abi.fields, k, f.values, |abi.fields|);
    FieldsPrintable(abi, k, f.values, |abi.fields|);
    if withDt && f.dt.Given? {
      PrintableAppend(abi, rs, [DtRec(k, f.dt.value)]);
    } else {
      assert FrameRecs(abi.fields, k, f, withDt) == rs;
    }
  }

  lemma {:induction false} PrintableAppend(abi: Abi, a: seq<Rec<Text, Text>>, b: seq<Rec<Text, Text>>)
    requires AllPrintable(abi, a) && AllPrintable(abi, b)
    ensures AllPrintable(abi, a + b)
  {
  }

  lemma {:induction false} CanonicalPrintable(abi: Abi, tc: TestCase<Text, Text>, withDt: bool)
    requires CleanCase(tc) && Valid(SchemaOf(abi), tc)
    ensures AllPrintable(abi, CanonicalRecs(SchemaOf(abi), tc, withDt))
  {
    SharedPrintable(abi, tc.shared, |abi.shared|);
    FramesWritable(abi, tc);
    FramesPrintable(abi, tc.frames, withDt, |tc.frames|);
  }

  /** Parsing the canonical text with delta_t of a valid testcase returns the testcase, exactly when every
      delta_t is listed and in range where the contract has a range. */
  lemma {:induction false} TextRoundTrip(abi: Abi, tc: TestCase<Text, Text>, o: Options)
    requires WellFormed(abi) && abi.fields != [] && Valid(SchemaOf(abi), tc) && CleanCase(tc) && |tc.frames| > 0
    ensures ParseText(abi, CanonicalText(abi, tc, true), o) == Done(tc) <==> Explicit(o, tc.frames)
  {
    CanonicalPrintable(abi, tc, true);
    ReadsText(abi, CanonicalRecs(SchemaOf(abi), tc, true));
    RoundTrip(SchemaOf(abi), tc, o);
  }

  // ----- what reading yields

  predicate CleanRec(abi: Abi, r: Rec<Text, Text>) {
    match r
    case SharedRec(n, v) => n in abi.shared && Clean(v)
    case FieldRec(_, n, v) => n in abi.fields && Clean(v)
    case DtRec(_, _) => true
  }

  predicate AllClean(abi: Abi, rs: seq<Rec<Text, Text>>) {
    forall i :: 0 <= i < |rs| ==> CleanRec(abi, rs[i])
  }

  lemma {:induction false} PartsClean(abi: Abi, name: Text, ty: Text, value: Text)
    requires Clean(value) && ReadParts(abi, name, ty, value).Done? && ReadParts(abi, name, ty, value).value.Given?
    ensures CleanRec(abi, ReadParts(abi, name, ty, value).value.value)
  {
    var (cycle, field) := SplitCycle(name);
    LookupIn(abi, abi.fields, abi.upper(field), |abi.fields|);
    LookupIn(abi, abi.shared, abi.upper(name), |abi.shared|);
  }

  lemma {:induction false} LineYieldsClean(abi: Abi, raw: Text)
    requires Unbroken(raw) && ReadLine(abi, raw).Done? && ReadLine(abi, raw).value.Given?
    ensures CleanRec(abi, ReadLine(abi, raw).value.value)
  {
    var s := Strip(raw);
    StripTrims(raw);
    var a := Find(s, ',', 0);
    var b := Find(s, ',', a + 1);
    StripTrims(s[b + 1..]);
    PartsClean(abi, Strip(s[..a]), Strip(s[a + 1..b]), Strip(s[b + 1..]));
  }

  predicate YieldsClean(abi: Abi, one: Outcome<Maybe<Rec<Text, Text>>>) {
    one.Done? && one.value.Given? ==> CleanRec(abi, one.value.value)
  }

  lemma {:induction false} GatherClean(abi: Abi, outs: seq<Outcome<Maybe<Rec<Text, Text>>>>, n: nat)
    requires n <= |outs| && (forall i :: 0 <= i < |outs| ==> YieldsClean(abi, outs[i])) && Gather(outs, n).Done?
    ensures AllClean(abi, Gather(outs, n).value)
  {
    if n > 0 {
      GatherClean(abi, outs, n - 1);
      assert YieldsClean(abi, outs[n - 1]);
    }
  }

  lemma {:induction false} TextYieldsClean(abi: Abi, text: Text)
    requires ReadText(abi, text).Done?
    ensures AllClean(abi, ReadText(abi, text).value)
  {
    FeedKeepsUnbroken(text, |text|);
    var lines := SplitLines(text);
    var outs := ReadEach(abi, lines);
    forall i | 0 <= i < |outs|
      ensures YieldsClean(abi, outs[i])
    {
      if outs[i].Done? && outs[i].value.Given? {
        LineYieldsClean(abi, lines[i]);
      }
    }
    GatherClean(abi, outs, |outs|);
  }

  predicate CleanCollected(c: Collected<Text, Text>) {
    CleanMap(c.shared) && forall k :: k in c.raw ==> CleanMap(c.raw[k])
  }

  lemma {:induction false} AddKeepsClean(abi: Abi, rs: seq<Rec<Text, Text>>, n: nat)
    requires AllClean(abi, rs) && n <= |rs|
    ensures CleanCollected(AddAll(Nothing(), rs, n))
  {
    if n > 0 {
      AddKeepsClean(abi, rs, n - 1);
      assert CleanRec(abi, rs[n - 1]);
      AddClean(abi, AddAll(Nothing(), rs, n - 1), rs[n - 1]);
    }
  }

  lemma {:induction false} AddClean(abi: Abi, c: Collected<Text, Text>, r: Rec<Text, Text>)
    requires CleanCollected(c) && CleanRec(abi, r)
    ensures CleanCollected(Add(c, r))
  {
    if r.FieldRec? {
      assert CleanMap(RawAt(c, r.cycle));
    }
  }

  lemma {:induction false} InheritedClean(abi: Abi, c: Collected<Text, Text>, k: nat)
    requires WellFormed(abi) && CleanCollected(c)
    ensures CleanMap(Inherited(SchemaOf(abi), c, k))
  {
    if k > 0 {
      InheritedClean(abi, c, k - 1);
      assert CleanMap(RawAt(c, k - 1));
    }
  }

  lemma {:induction false} BuiltClean(abi: Abi, c: Collected<Text, Text>, o: Options, n: nat)
    requires WellFormed(abi) && CleanCollected(c) && BuildFrames(SchemaOf(abi), c, o, n).Done?
    ensures CleanFrames(BuildFrames(SchemaOf(abi), c, o, n).value)
  {
    if n > 0 {
      BuiltClean(abi, c, o, n - 1);
      InheritedClean(abi, c, n);
      var fs := BuildFrames(SchemaOf(abi), c, o, n - 1).value;
      MoreClean(fs, Frame(Inherited(SchemaOf(abi), c, n), DtAt(c, o, n - 1)));
    }
  }

  lemma {:induction false} MoreClean(fs: seq<Frame<Text, Text>>, f: Frame<Text, Text>)
    requires CleanFrames(fs) && CleanMap(f.values)
    ensures CleanFrames(fs + [f])
  {}

  lemma {:induction false} ParsedClean(abi: Abi, rs: seq<Rec<Text, Text>>, o: Options)
    requires WellFormed(abi) && AllClean(abi, rs) && Parse(SchemaOf(abi), rs, o).Done?
    ensures CleanCase(Parse(SchemaOf(abi), rs, o).value)
  {
    var c := AddAll(Nothing(), rs, |rs|);
    AddKeepsClean(abi, rs, |rs|);
    BuiltClean(abi, c, o, |Indices(c)|);
    InheritedClean(abi, c, 0);
    MoreClean([], Frame(Inherited(SchemaOf(abi), c, 0), Absent));
  }

  lemma {:induction false} CleanDeclared(abi: Abi, rs: seq<Rec<Text, Text>>)
    requires AllClean(abi, rs)
    ensures Declared(SchemaOf(abi), rs)
  {
    forall i | 0 <= i < |rs|
      ensures match rs[i]
              case SharedRec(n, _) => n in abi.shared
              case FieldRec(_, n, _) => n in abi.fields
              case DtRec(_, _) => true
    {
      assert CleanRec(abi, rs[i]);
    }
  }

  // ----- canonicalize on texts

  /** The canonical records of an accepted list can be printed and read back. */
  lemma {:induction false} CanonicalReads(abi: Abi, rs: seq<Rec<Text, Text>>, o: Options, withDt: bool)
    requires WellFormed(abi) && AllClean(abi, rs) && Parse(SchemaOf(abi), rs, o).Done?
    ensures var out := CanonicalRecs(SchemaOf(abi), Parse(SchemaOf(abi), rs, o).value, withDt);
            AllClean(abi, out) && ReadText(abi, PrintText(abi, out)) == Done(out)
  {
    var tc := Parse(SchemaOf(abi), rs, o).value;
    ParsedClean(abi, rs, o);
    Parsed(SchemaOf(abi), rs, o);
    CanonicalPrintable(abi, tc, withDt);
    ReadsText(abi, CanonicalRecs(SchemaOf(abi), tc, withDt));
  }

  /** `canonicalize` is idempotent on an accepted text exactly when the text is stable. */
  lemma {:induction false} CanonicalizeIdempotentExactly(abi: Abi, text: Text, o: Options, withDt: bool, out: Text)
    requires WellFormed(abi) && Canonicalize(abi, text, o, withDt) == Done(out)
    ensures Canonicalize(abi, out, o, withDt) == Done(out) <==> Stable(SchemaOf(abi), ReadText(abi, text).value, o, withDt)
  {
    var s := SchemaOf(abi);
    var rs := ReadText(abi, text).value;
    var again := CanonicalRecs(s, Parse(s, rs, o).value, withDt);
    TextYieldsClean(abi, text);
    CleanDeclared(abi, rs);
    CanonicalReads(abi, rs, o, withDt);
    IdempotentExactly(s, rs, o, withDt);
    if Parse(s, again, o).Done? {
      CanonicalReads(abi, again, o, withDt);
    }
  }

  lemma {:induction false} ReadsEmpty(abi: Abi)
    ensures ReadText(abi, []) == Done([])
  {
    assert SplitLines([]) == [[]];
    assert Gather(ReadEach(abi, [[]]), 0) == Done([]);
  }

  /** The empty text, with a range of delta_t and delta_t listed, is accepted, and the second pass lists the
      scan period or refuses it. */
  lemma {:induction false} EmptyTextNotStable(abi: Abi, o: Options)
    requires WellFormed(abi) && abi.fields != [] && DefaultsOk(SchemaOf(abi)) && o.range.Given?
    ensures Canonicalize(abi, [], o, true).Done?
    ensures var out := Canonicalize(abi, [], o, true);
            Canonicalize(abi, out.value, o, true) != out
  {
    ReadsEmpty(abi);
    NothingParses(SchemaOf(abi), o);
    CanonicalizeIdempotentExactly(abi, [], o, true, Canonicalize(abi, [], o, true).value);
  }

  /** A text of one frame with a delta_t in range, and a scan period out of range: the text without delta_t
      is refused by the second pass. */
  lemma {:induction false} UnlistedDtNotStable(abi: Abi, o: Options, n: Text, v: Text, dt: int)
    requires WellFormed(abi) && DefaultsOk(SchemaOf(abi)) && n in abi.fields && Clean(v) && abi.valueOk(n, v)
    requires o.range.Given? && 0 <= dt <= MAX_DT && InRange(o, Given(dt)) && !ScanFits(o)
    ensures var text := PrintText(abi, OneFrame(n, v, dt));
            && Canonicalize(abi, text, o, false).Done?
            && Canonicalize(abi, Canonicalize(abi, text, o, false).value, o, false) == Raised
  {
    var s, rs := SchemaOf(abi), OneFrame(n, v, dt);
    var text := PrintText(abi, rs);
    ReadsText(abi, rs);
    OneFrameParses(s, n, v, dt, o);
    TextYieldsClean(abi, text);
    CanonicalReads(abi, rs, o, false);
    Parsed(s, rs, o);
    WithoutDt(s, Parse(s, rs, o).value, o);
  }

  // ----- the loop over the lines

  method GatherInTurn<R>(outs: seq<Outcome<Maybe<R>>>) returns (r: Outcome<seq<R>>)
    ensures r == Gather(outs, |outs|)
  {
    var rs := [];
    var i := 0;
    while i < |outs|
      invariant i <= |outs| && Gather(outs, i) == Done(rs)
    {
      if outs[i].Raised? {
        GatherRaises(outs, i + 1, |outs|);
        return Raised;
      }
      if outs[i].value.Given? {
        rs := rs + [outs[i].value.value];
      }
      i := i + 1;
    }
    return Done(rs);
  }

  lemma {:induction false} GatherRaises<R>(outs: seq<Outcome<Maybe<R>>>, i: nat, n: nat)
    requires i <= n <= |outs| && Gather(outs, i).Raised?
    ensures Gather(outs, n).Raised?
  {
    if i < n { GatherRaises(outs, i, n - 1); }
  }

  method ParseTestcase(abi: Abi, text: Text, o: Options) returns (r: Outcome<TestCase<Text, Text>>)
    ensures r == ParseText(abi, text, o)
  {
    var records := GatherInTurn(ReadEach(abi, SplitLines(text)));
    if records.Raised? {
      return Raised;
    }
    r := ParseRecords(SchemaOf(abi), records.value, o);
  }

  method CanonicalizeText(abi: Abi, text: Text, o: Options, withDt: bool) returns (r: Outcome<Text>)
    ensures r == Canonicalize(abi, text, o, withDt)
  {
    var parsed := ParseTestcase(abi, text, o);
    if parsed.Raised? {
      return Raised;
    }
    var rs := ListRecords(SchemaOf(abi), parsed.value, withDt);
    return Done(PrintText(abi, rs));
  }
}
