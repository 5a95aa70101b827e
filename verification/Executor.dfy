/** `semantist_v3_execute` (compiler/harness/v3gen.py) and `split_record` (compiler/harness/generator.py) on the
    text of a testcase. A C string is a text without the terminating NUL. */
module Executor {
  import opened Wrappers
  import opened Arithmetic
  import opened FrameCases
  import opened RecordText
  import opened FrameText
  import opened ScanRun

  // ----- strtok_r with a line feed

  function Tokenize(s: Text, n: nat): Cut
    requires n <= |s|
  {
    if n == 0 then Cut([], [])
    else
      var cut := Tokenize(s, n - 1);
      if s[n - 1] != '\n' then cut.(current := cut.current + [s[n - 1]])
      else if cut.current == [] then cut
      else Cut(cut.lines + [cut.current], [])
  }

  /** The non-empty stretches between line feeds. */
  function Tokens(s: Text): seq<Text> {
    var cut := Tokenize(s, |s|);
    if cut.current == [] then cut.lines else cut.lines + [cut.current]
  }

  predicate Token(s: Text) {
    s != [] && Lacks(s, '\n')
  }

  predicate AllTokens(lines: seq<Text>) {
    forall i :: 0 <= i < |lines| ==> Token(lines[i])
  }

  lemma {:induction false} TokenizePrefix(a: Text, b: Text, n: nat)
    requires n <= |a|
    ensures Tokenize(a + b, n) == Tokenize(a, n)
  {
    if n > 0 { TokenizePrefix(a, b, n - 1); }
  }

  lemma {:induction false} TokenizeLine(a: Text, line: Text, n: nat)
    requires n <= |line| && Lacks(line, '\n') && Tokenize(a, |a|).current == []
    ensures Tokenize(a + (line + ['\n']), |a| + n) == Cut(Tokenize(a, |a|).lines, line[..n])
  {
    if n == 0 {
      TokenizePrefix(a, line + ['\n'], |a|);
    } else {
      TokenizeLine(a, line, n - 1);
      assert (a + (line + ['\n']))[|a| + n - 1] == line[n - 1];
      assert line[..n] == line[..n - 1] + [line[n - 1]];
    }
  }

  /** Lines that are written one after the other are its tokens. */
  lemma {:induction false} TokenizeUnlines(lines: seq<Text>, n: nat)
    requires n <= |lines| && AllTokens(lines)
    ensures Tokenize(Unlines(lines, n), |Unlines(lines, n)|) == Cut(lines[..n], [])
  {
    if n > 0 {
      TokenizeUnlines(lines, n - 1);
      var a, line := Unlines(lines, n - 1), lines[n - 1];
      assert Token(line);
      TokenizeLine(a, line, |line|);
      assert line[..|line|] == line;
      assert (a + (line + ['\n']))[|a| + |line|] == '\n';
      assert lines[..n] == lines[..n - 1] + [line];
    }
  }

  lemma {:induction false} TokensOfUnlines(lines: seq<Text>)
    requires AllTokens(lines)
    ensures Tokens(Unlines(lines, |lines|)) == lines
  {
    TokenizeUnlines(lines, |lines|);
    assert lines[..|lines|] == lines;
  }

  // ----- the two buffers

  datatype Kind = NoRecord | SharedLine | FrameLine

  /** A line with a comma is a frame record when digits and a dot come first. */
  function KindOf(line: Text): Kind {
    var d := DigitRun(line, 0);
    if Find(line, ',', 0) == |line| then NoRecord
    else if d < |line| && line[d] == '.' then FrameLine
    else SharedLine
  }

  /** A line and the buffer it goes to. */
  datatype Sorted = Sorted(kind: Kind, text: Text)

  function Sort(lines: seq<Text>): seq<Sorted> {
    seq(|lines|, i requires 0 <= i < |lines| => Sorted(KindOf(lines[i]), lines[i]))
  }

  /** The lines of one kind among the first n. */
  function Chosen(ls: seq<Sorted>, kind: Kind, n: nat): seq<Text>
    requires n <= |ls|
  {
    if n == 0 then []
    else Chosen(ls, kind, n - 1) + if ls[n - 1].kind == kind then [ls[n - 1].text] else []
  }

  function Written(ls: seq<Sorted>, kind: Kind, n: nat): Text
    requires n <= |ls|
  {
    Unlines(Chosen(ls, kind, n), |Chosen(ls, kind, n)|)
  }

  /** The characters written for a kind. */
  function Size(ls: seq<Sorted>, kind: Kind, n: nat): nat
    requires n <= |ls|
  {
    if n == 0 then 0 else Size(ls, kind, n - 1) + if ls[n - 1].kind == kind then |ls[n - 1].text| + 1 else 0
  }

  /** Both buffers hold what has been written to them within their length. */
  predicate Fits(ls: seq<Sorted>, n: nat, length: nat)
    requires n <= |ls|
  {
    Size(ls, SharedLine, n) <= length && Size(ls, FrameLine, n) <= length
  }

  /** Characters of the first n lines with a line feed each. */
  function Weight(lines: seq<Text>, n: nat): nat
    requires n <= |lines|
  {
    if n == 0 then 0 else Weight(lines, n - 1) + |lines[n - 1]| + 1
  }

  lemma {:induction false} UnlinesPrefix(a: seq<Text>, b: seq<Text>, n: nat)
    requires n <= |a|
    ensures Unlines(a + b, n) == Unlines(a, n)
  {
    if n > 0 { UnlinesPrefix(a, b, n - 1); }
  }

  lemma {:induction false} WrittenStep(ls: seq<Sorted>, kind: Kind, i: nat)
    requires i < |ls|
    ensures Written(ls, kind, i + 1)
         == if ls[i].kind == kind then Written(ls, kind, i) + (ls[i].text + ['\n']) else Written(ls, kind, i)
  {
    var before := Chosen(ls, kind, i);
    if ls[i].kind == kind {
      UnlinesPrefix(before, [ls[i].text], |before|);
    } else {
      assert Chosen(ls, kind, i + 1) == before;
    }
  }

  lemma {:induction false} SizeOfWritten(ls: seq<Sorted>, kind: Kind, n: nat)
    requires n <= |ls|
    ensures |Written(ls, kind, n)| == Size(ls, kind, n)
  {
    if n > 0 {
      SizeOfWritten(ls, kind, n - 1);
      WrittenGrows(ls, kind, n - 1);
    }
  }

  lemma {:induction false} WrittenGrows(ls: seq<Sorted>, kind: Kind, i: nat)
    requires i < |ls|
    ensures |Written(ls, kind, i + 1)| == |Written(ls, kind, i)| + if ls[i].kind == kind then |ls[i].text| + 1 else 0
  {
    WrittenStep(ls, kind, i);
  }

  lemma {:induction false} SizeGrows(ls: seq<Sorted>, kind: Kind, i: nat, n: nat)
    requires i <= n <= |ls|
    ensures Size(ls, kind, i) <= Size(ls, kind, n)
  {
    if i < n { SizeGrows(ls, kind, i, n - 1); }
  }

  lemma {:induction false} OverrunStays(ls: seq<Sorted>, i: nat, n: nat, length: nat)
    requires i <= n <= |ls| && !Fits(ls, i, length)
    ensures !Fits(ls, n, length)
  {
    SizeGrows(ls, SharedLine, i, n);
    SizeGrows(ls, FrameLine, i, n);
  }

  /** The size test before a copy. */
  lemma {:induction false} LineOverruns(ls: seq<Sorted>, i: nat, length: nat)
    requires i < |ls| && Fits(ls, i, length)
    ensures var kind := ls[i].kind;
            var used := if kind == FrameLine then |Written(ls, FrameLine, i)| else |Written(ls, SharedLine, i)|;
            Fits(ls, i + 1, length) <==> !(kind != NoRecord && used + |ls[i].text| + 2 > length + 1)
  {
    SizeOfWritten(ls, SharedLine, i);
    SizeOfWritten(ls, FrameLine, i);
  }

  predicate AllOfKind(ls: seq<Sorted>, kind: Kind) {
    forall i :: 0 <= i < |ls| ==> ls[i].kind == kind
  }

  /** All the lines are of the kind exactly when the buffer takes all of them. */
  lemma {:induction false} SizeOfAll(ls: seq<Sorted>, lines: seq<Text>, kind: Kind, n: nat)
    requires n <= |ls| == |lines| && forall i :: 0 <= i < |ls| ==> ls[i].text == lines[i]
    ensures Size(ls, kind, n) <= Weight(lines, n)
    ensures Size(ls, kind, n) == Weight(lines, n) <==> forall i :: 0 <= i < n ==> ls[i].kind == kind
  {
    if n > 0 { SizeOfAll(ls, lines, kind, n - 1); }
  }

  // ----- when the buffers are too small

  /** No line feed but between two lines. */
  predicate TightTo(s: Text, n: nat)
    requires n <= |s|
  {
    n == 0 || (TightTo(s, n - 1) && (s[n - 1] == '\n' ==> n > 1 && s[n - 2] != '\n'))
  }

  predicate Tight(s: Text) {
    s != [] && s[|s| - 1] != '\n' && TightTo(s, |s|)
  }

  lemma {:induction false} TokenizeWeight(s: Text, n: nat)
    requires n <= |s|
    ensures var cut := Tokenize(s, n);
            && Weight(cut.lines, |cut.lines|) + |cut.current| <= n
            && (Weight(cut.lines, |cut.lines|) + |cut.current| == n <==> TightTo(s, n))
            && (cut.current == [] <==> n == 0 || s[n - 1] == '\n')
  {
    if n > 0 {
      TokenizeWeight(s, n - 1);
      var cut := Tokenize(s, n - 1);
      WeightAppend(cut.lines, cut.current);
    }
  }

  lemma {:induction false} WeightPrefix(a: seq<Text>, b: seq<Text>, n: nat)
    requires n <= |a|
    ensures Weight(a + b, n) == Weight(a, n)
  {
    if n > 0 { WeightPrefix(a, b, n - 1); }
  }

  lemma {:induction false} WeightAppend(lines: seq<Text>, line: Text)
    ensures Weight(lines + [line], |lines| + 1) == Weight(lines, |lines|) + |line| + 1
  {
    WeightPrefix(lines, [line], |lines|);
  }

  lemma {:induction false} TokensWeight(s: Text)
    ensures Weight(Tokens(s), |Tokens(s)|) <= |s| + 1
    ensures Weight(Tokens(s), |Tokens(s)|) == |s| + 1 <==> Tight(s)
  {
    TokenizeWeight(s, |s|);
    var cut := Tokenize(s, |s|);
    WeightAppend(cut.lines, cut.current);
  }

  /** The copy overruns a buffer exactly when the text is tight and all its lines go to the same buffer. */
  lemma {:induction false} OverrunExactly(s: Text)
    ensures var ls := Sort(Tokens(s));
            !Fits(ls, |ls|, |s|) <==> Tight(s) && (AllOfKind(ls, SharedLine) || AllOfKind(ls, FrameLine))
  {
    var lines := Tokens(s);
    TokensWeight(s);
    SizeOfAll(Sort(lines), lines, SharedLine, |lines|);
    SizeOfAll(Sort(lines), lines, FrameLine, |lines|);
  }

  lemma {:induction false} TokenizeWhole(line: Text, n: nat)
    requires Lacks(line, '\n') && n <= |line|
    ensures Tokenize(line, n) == Cut([], line[..n])
  {
    if n > 0 {
      TokenizeWhole(line, n - 1);
      assert line[..n] == line[..n - 1] + [line[n - 1]];
    }
  }

  lemma {:induction false} OneToken(line: Text)
    requires Token(line)
    ensures Tokens(line) == [line]
  {
    TokenizeWhole(line, |line|);
    assert line[..|line|] == line;
  }

  /** One frame record without a line feed at its end is enough. */
  lemma {:induction false} LoneLineOverruns(line: Text)
    requires Token(line) && KindOf(line) == FrameLine
    ensures var ls := Sort(Tokens(line));
            !Fits(ls, |ls|, |line|)
  {
    OneToken(line);
    var ls := Sort([line]);
    assert ls == [Sorted(FrameLine, line)] && Size(ls, FrameLine, 0) == 0;
  }

  // ----- reading a frame record

  /** The scan target; whether `semantist_init` accepts the shared records; and what `atoi` makes of numbers
      beyond int, and the delta_t parser of texts other than plain decimal numbers. */
  datatype Device = Device(target: Target<Text, Text>, initOk: Text -> bool, largeAtoi: Text -> int,
                           otherDt: Text -> Outcome<int>)

  const INT_LIMIT: int := 0x8000_0000

  function Atoi(d: Device, s: Text): int {
    if AllDigits(s) && Value(s, |s|) < INT_LIMIT then Value(s, |s|) else d.largeAtoi(s)
  }

  function UnsignedDt(d: Device, s: Text): Outcome<int> {
    if IsDecimal(s) && Value(s, |s|) <= MAX_DT then Done(Value(s, |s|)) else d.otherDt(s)
  }

  /** `split_record`: the name up to the first comma and the value after the second. */
  function SplitRecord(line: Text): Maybe<(Text, Text)> {
    var a := Find(line, ',', 0);
    if a == |line| || Find(line, ',', a + 1) == |line| then Absent
    else Given((line[..a], line[Find(line, ',', a + 1) + 1..]))
  }

  function OnParts(d: Device, run: Run<Text, Text>, cycle: int, name: Text, value: Text): Progress<Text, Text> {
    if name != DT_NAME then OnField(d.target, run, cycle, name, value)
    else
      match UnsignedDt(d, value)
      case Raised => Refused(run)
      case Done(dt) => OnDt(d.target, run, cycle, dt)
  }

  function OnLine(d: Device, run: Run<Text, Text>, line: Text): Progress<Text, Text> {
    match SplitRecord(line)
    case Absent => Going(run)
    case Given((name, value)) =>
      var dot := Find(name, '.', 0);
      if dot == |name| then OnParts(d, run, 0, name, value)
      else OnParts(d, run, Atoi(d, name[..dot]), name[dot + 1..], value)
  }

  function RunLines(d: Device, lines: seq<Text>, n: nat): Progress<Text, Text>
    requires n <= |lines|
  {
    if n == 0 then Going(Start(d.target))
    else
      match RunLines(d, lines, n - 1)
      case Refused(run) => Refused(run)
      case Going(run) => OnLine(d, run, lines[n - 1])
  }

  // ----- the whole execution

  /** The abort of the copy, return code 2, and return code 0, with the steps taken. */
  datatype Exit = Aborted | Rejected(steps: seq<Step<Text, Text>>) | Finished(steps: seq<Step<Text, Text>>)

  function Executed(d: Device, data: Text): Exit {
    var ls := Sort(Tokens(data));
    if !Fits(ls, |ls|, |data|) then Aborted
    else if !d.initOk(Written(ls, SharedLine, |ls|)) then Rejected([])
    else
      var records := Tokens(Written(ls, FrameLine, |ls|));
      match RunLines(d, records, |records|)
      case Refused(run) => Rejected(run.steps)
      case Going(run) => Finished(run.steps + [Step(run.values, run.dt)])
  }

  // ----- printed records

  lemma {:induction false} PrintedParts(name: Text, ty: Text, value: Text)
    requires Lacks(name, ',') && Lacks(ty, ',')
    ensures SplitRecord(Line(name, ty, value)) == Given((name, value))
  {
    CutLine(name, ty, value);
  }

  lemma {:induction false} PrefixedDot(k: nat, name: Text)
    ensures var s := Decimal(k) + ['.'] + name;
            && Find(s, '.', 0) == |Decimal(k)|
            && s[..|Decimal(k)|] == Decimal(k)
            && s[|Decimal(k)| + 1..] == name
  {
    var s := Decimal(k) + ['.'] + name;
    assert forall j :: 0 <= j < |Decimal(k)| ==> s[j] == Decimal(k)[j];
    assert s[|Decimal(k)|] == '.';
    FindAt(s, '.', 0, |Decimal(k)|);
  }

  lemma {:induction false} PrefixedLacks(k: nat, name: Text)
    requires Lacks(name, ',')
    ensures Lacks(Decimal(k) + ['.'] + name, ',')
  {}

  /** A printed line with a frame number is read as its number, name and value. */
  lemma {:induction false} PrefixedRuns(d: Device, run: Run<Text, Text>, k: nat, name: Text, ty: Text, value: Text)
    requires k < INT_LIMIT && Lacks(name, ',') && Lacks(ty, ',')
    ensures OnLine(d, run, Line(Decimal(k) + ['.'] + name, ty, value)) == OnParts(d, run, k, name, value)
  {
    PrefixedLacks(k, name);
    PrintedParts(Decimal(k) + ['.'] + name, ty, value);
    PrefixedDot(k, name);
    ValueOfDecimal(k);
  }

  /** A record of a frame that the harness can number. */
  predicate Runnable(abi: Abi, r: Rec<Text, Text>) {
    !r.SharedRec? && Printable(abi, r) && r.cycle < INT_LIMIT && (r.DtRec? ==> r.dt <= MAX_DT)
  }

  lemma {:induction false} LineIsRec(d: Device, abi: Abi, run: Run<Text, Text>, r: Rec<Text, Text>)
    requires WellFormed(abi) && Runnable(abi, r)
    ensures OnLine(d, run, Print(abi, r)) == OnRec(d.target, run, r)
  {
    match r
    case FieldRec(k, n, v) =>
      var i :| 0 <= i < |abi.fields| && abi.fields[i] == n;
      PrefixedRuns(d, run, k, n, abi.token(n), v);
    case DtRec(k, dt) =>
      ConstantsPlain();
      DecimalClean(dt);
      PrefixedRuns(d, run, k, DT_NAME, TIME_TOKEN, Decimal(dt));
  }

  predicate AllRunnable(abi: Abi, rs: seq<Rec<Text, Text>>) {
    forall i :: 0 <= i < |rs| ==> Runnable(abi, rs[i])
  }

  /** Whatever the run, the line does what the record does. */
  ghost predicate Mirrors(d: Device, line: Text, r: Rec<Text, Text>) {
    forall run: Run<Text, Text> :: OnLine(d, run, line) == OnRec(d.target, run, r)
  }

  lemma {:induction false} LinesAreRecs(d: Device, lines: seq<Text>, rs: seq<Rec<Text, Text>>, n: nat)
    requires n <= |lines| == |rs| && forall i :: 0 <= i < |lines| ==> Mirrors(d, lines[i], rs[i])
    ensures RunLines(d, lines, n) == RunRecs(d.target, Start(d.target), rs, n)
  {
    if n > 0 {
      LinesAreRecs(d, lines, rs, n - 1);
      assert Mirrors(d, lines[n - 1], rs[n - 1]);
    }
  }

  lemma {:induction false} PrintedMirrors(d: Device, abi: Abi, rs: seq<Rec<Text, Text>>)
    requires WellFormed(abi) && AllRunnable(abi, rs)
    ensures forall i :: 0 <= i < |rs| ==> Mirrors(d, PrintAll(abi, rs)[i], rs[i])
  {
    forall i | 0 <= i < |rs|
      ensures Mirrors(d, PrintAll(abi, rs)[i], rs[i])
    {
      forall run: Run<Text, Text>
        ensures OnLine(d, run, Print(abi, rs[i])) == OnRec(d.target, run, rs[i])
      {
        LineIsRec(d, abi, run, rs[i]);
      }
    }
  }

  lemma {:induction false} KindOfPrefixed(k: nat, name: Text, ty: Text, value: Text)
    ensures KindOf(Line(Decimal(k) + ['.'] + name, ty, value)) == FrameLine
  {
    var head := Decimal(k) + ['.'] + name;
    var s := Line(head, ty, value);
    assert forall j :: 0 <= j < |Decimal(k)| ==> s[j] == Decimal(k)[j];
    assert s[|Decimal(k)|] == '.' && s[|head|] == ',';
    DigitRunAt(s, 0, |Decimal(k)|);
    FindSome(s, ',', 0, |head|);
  }

  lemma {:induction false} KindOfPlain(name: Text, ty: Text, value: Text)
    requires Lacks(name, '.')
    ensures KindOf(Line(name, ty, value)) == SharedLine
  {
    var s := Line(name, ty, value);
    assert s[|name|] == ',' && forall j :: 0 <= j < |name| ==> s[j] == name[j];
    FindSome(s, ',', 0, |name|);
    assert !IsDigit(s[|name|]);
  }

  lemma {:induction false} KindOfPrinted(abi: Abi, r: Rec<Text, Text>)
    requires WellFormed(abi) && Printable(abi, r)
    ensures KindOf(Print(abi, r)) == if r.SharedRec? then SharedLine else FrameLine
    ensures Token(Print(abi, r))
  {
    ReadsPrinted(abi, r);
    match r
    case SharedRec(n, v) =>
      var i :| 0 <= i < |abi.shared| && abi.shared[i] == n;
      KindOfPlain(n, abi.token(n), v);
    case FieldRec(k, n, v) => KindOfPrefixed(k, n, abi.token(n), v);
    case DtRec(k, dt) => KindOfPrefixed(k, DT_NAME, TIME_TOKEN, Decimal(dt));
  }

  // ----- a canonical text

  lemma {:induction false} ChosenNone(ls: seq<Sorted>, kind: Kind, n: nat)
    requires n <= |ls| && forall i :: 0 <= i < n ==> ls[i].kind != kind
    ensures Chosen(ls, kind, n) == []
  {
    if n > 0 { ChosenNone(ls, kind, n - 1); }
  }

  lemma {:induction false} ChosenAll(ls: seq<Sorted>, lines: seq<Text>, from: nat, kind: Kind, n: nat)
    requires from <= n <= |ls| == |lines| && Chosen(ls, kind, from) == []
    requires forall i :: from <= i < n ==> ls[i] == Sorted(kind, lines[i])
    ensures Chosen(ls, kind, n) == lines[from..n]
  {
    if n > from {
      ChosenAll(ls, lines, from, kind, n - 1);
      assert lines[from..n] == lines[from..n - 1] + [lines[n - 1]];
    }
  }

  lemma {:induction false} RunnablePrintable(abi: Abi, rs: seq<Rec<Text, Text>>)
    requires AllRunnable(abi, rs)
    ensures AllPrintable(abi, rs) && forall i :: 0 <= i < |rs| ==> !rs[i].SharedRec?
  {
    forall i | 0 <= i < |rs|
      ensures Printable(abi, rs[i]) && !rs[i].SharedRec?
    {
      assert Runnable(abi, rs[i]);
    }
  }

  lemma {:induction false} SharedAreShared(names: seq<Text>, m: map<Text, Text>, n: nat)
    requires n <= |names|
    ensures forall i :: 0 <= i < |SharedRecs(names, m, n)| ==> SharedRecs(names, m, n)[i].SharedRec?
  {
    if n > 0 { SharedAreShared(names, m, n - 1); }
  }

  lemma {:induction false} KindsOfPrinted(abi: Abi, rs: seq<Rec<Text, Text>>)
    requires WellFormed(abi) && AllPrintable(abi, rs)
    ensures AllTokens(PrintAll(abi, rs))
    ensures forall i :: 0 <= i < |rs| ==> Sort(PrintAll(abi, rs))[i].kind == if rs[i].SharedRec? then SharedLine else FrameLine
  {
    forall i | 0 <= i < |rs|
      ensures Token(PrintAll(abi, rs)[i]) && Sort(PrintAll(abi, rs))[i].kind == if rs[i].SharedRec? then SharedLine else FrameLine
    {
      KindOfPrinted(abi, rs[i]);
    }
  }

  /** Lines of shared records and then of frame records. */
  lemma {:induction false} ChosenTail(ls: seq<Sorted>, lines: seq<Text>, n: nat)
    requires n <= |ls| == |lines|
    requires forall i :: 0 <= i < |ls| ==> ls[i] == Sorted(if i < n then SharedLine else FrameLine, lines[i])
    ensures Chosen(ls, FrameLine, |ls|) == lines[n..]
  {
    ChosenNone(ls, FrameLine, n);
    ChosenAll(ls, lines, n, FrameLine, |ls|);
  }

  /** The frame buffer of a canonical text holds the lines of its frame records. */
  lemma {:induction false} FrameLinesChosen(abi: Abi, a: seq<Rec<Text, Text>>, b: seq<Rec<Text, Text>>)
    requires WellFormed(abi) && AllPrintable(abi, a) && AllPrintable(abi, b)
    requires (forall i :: 0 <= i < |a| ==> a[i].SharedRec?) && forall i :: 0 <= i < |b| ==> !b[i].SharedRec?
    ensures var lines := PrintAll(abi, a + b);
            AllTokens(lines) && Chosen(Sort(lines), FrameLine, |lines|) == PrintAll(abi, b)
  {
    var lines := PrintAll(abi, a + b);
    KindsOfPrinted(abi, a + b);
    ChosenTail(Sort(lines), lines, |a|);
    assert lines[|a|..] == PrintAll(abi, b);
  }

  lemma {:induction false} FieldsRunnable(abi: Abi, k: nat, m: map<Text, Text>, n: nat)
    requires n <= |abi.fields| && CleanMap(m) && k < INT_LIMIT
    ensures AllRunnable(abi, FieldRecs(abi.fields, k, m, n))
  {
    if n > 0 { FieldsRunnable(abi, k, m, n - 1); }
  }

  lemma {:induction false} FramesRunnable(abi: Abi, tc: TestCase<Text, Text>, n: nat)
    requires n <= |tc.frames| <= INT_LIMIT && CleanCase(tc) && Valid(SchemaOf(abi), tc)
    ensures AllRunnable(abi, FramesRecs(abi.fields, tc.frames, true, n))
  {
    if n > 0 {
      FramesRunnable(abi, tc, n - 1);
      assert FrameValid(SchemaOf(abi), tc.frames[n - 1]);
      FieldsRunnable(abi, n - 1, tc.frames[n - 1].values, |abi.fields|);
    }
  }

  /** A printed text ends with a line feed or is empty, so no buffer overruns. */
  lemma {:induction false} PrintedFits(lines: seq<Text>)
    requires AllTokens(lines)
    ensures var s := Unlines(lines, |lines|);
            Tokens(s) == lines && Fits(Sort(lines), |lines|, |s|)
  {
    var s := Unlines(lines, |lines|);
    TokensOfUnlines(lines);
    OverrunExactly(s);
  }

  /** The device is built for the testcase's fields and takes its records. */
  predicate Takes(d: Device, abi: Abi, tc: TestCase<Text, Text>) {
    && d.target.fields == abi.fields
    && AllAccepted(d.target, tc.frames)
    && d.initOk(Written(Sort(PrintAll(abi, CanonicalRecs(SchemaOf(abi), tc, true))), SharedLine,
                        |CanonicalRecs(SchemaOf(abi), tc, true)|))
  }

  /** A testcase that the harness can take: valid, clean, with fields and frames, and accepted by the parsers. */
  ghost predicate Ready(d: Device, abi: Abi, tc: TestCase<Text, Text>) {
    && WellFormed(abi) && abi.fields != [] && Valid(SchemaOf(abi), tc) && CleanCase(tc)
    && 0 < |tc.frames| <= INT_LIMIT && Takes(d, abi, tc)
  }

  lemma {:induction false} FramesExecuted(d: Device, abi: Abi, tc: TestCase<Text, Text>)
    requires WellFormed(abi) && abi.fields != [] && Valid(SchemaOf(abi), tc) && CleanCase(tc)
    requires 0 < |tc.frames| <= INT_LIMIT && d.target.fields == abi.fields && AllAccepted(d.target, tc.frames)
    ensures var records := PrintAll(abi, FramesRecs(abi.fields, tc.frames, true, |tc.frames|));
            RunLines(d, records, |records|) == Going(Gathered(d.target, tc.frames, |tc.frames|))
  {
    var rs := FramesRecs(abi.fields, tc.frames, true, |tc.frames|);
    FramesRunnable(abi, tc, |tc.frames|);
    PrintedMirrors(d, abi, rs);
    LinesAreRecs(d, PrintAll(abi, rs), rs, |rs|);
    RunFrames(d.target, tc.frames, |tc.frames|);
  }

  /** Executing the canonical text with delta_t of a testcase takes exactly one step for each frame, in order,
      with its values and its delta_t or the scan period; the copy does not abort. */
  lemma {:induction false} CanonicalExecutes(d: Device, abi: Abi, tc: TestCase<Text, Text>)
    requires Ready(d, abi, tc)
    ensures Executed(d, CanonicalText(abi, tc, true)) == Finished(StepsOf(d.target, tc.frames, |tc.frames|))
  {
    var n := |tc.frames|;
    var a := SharedRecs(abi.shared, tc.shared, |abi.shared|);
    var b := FramesRecs(abi.fields, tc.frames, true, n);
    var lines := PrintAll(abi, a + b);
    SharedPrintable(abi, tc.shared, |abi.shared|);
    SharedAreShared(abi.shared, tc.shared, |abi.shared|);
    FramesRunnable(abi, tc, n);
    RunnablePrintable(abi, b);
    FrameLinesChosen(abi, a, b);
    PrintedFits(lines);
    TokensOfFrames(abi, b);
    FramesExecuted(d, abi, tc);
  }

  lemma {:induction false} TokensOfFrames(abi: Abi, rs: seq<Rec<Text, Text>>)
    requires WellFormed(abi) && AllPrintable(abi, rs)
    ensures Tokens(Unlines(PrintAll(abi, rs), |rs|)) == PrintAll(abi, rs)
  {
    KindsOfPrinted(abi, rs);
    TokensOfUnlines(PrintAll(abi, rs));
  }

  // ----- the harness

  /** The static harness state, with the calls of the target. */
  class Harness {
    const d: Device
    var initialized: bool
    var vclock: int
    var frameIndex: int
    var steps: seq<Step<Text, Text>>

    constructor (d: Device)
      ensures this.d == d && !initialized
    {
      this.d, initialized, vclock, frameIndex, steps := d, false, 0, 0, [];
    }

    /** The counters agree with the steps taken since the start. */
    ghost predicate Counts()
      reads this
    {
      initialized && vclock == Clock(steps, |steps|) && frameIndex == |steps| % WORD
    }

    method Init(shared: Text) returns (code: int)
      modifies this
      ensures code == if d.initOk(shared) then 0 else 2
      ensures steps == []
      ensures code == 0 ==> Counts()
    {
      steps := [];
      if !d.initOk(shared) {
        return 2;
      }
      initialized, vclock, frameIndex := true, 0, 0;
      return 0;
    }

    method TakeStep(values: map<Text, Text>, dt: int) returns (code: int)
      modifies this
      ensures code == if old(initialized) then 0 else 2
      ensures steps == if code == 0 then old(steps) + [Step(values, dt)] else old(steps)
      ensures old(Counts()) ==> Counts()
    {
      if !initialized {
        return 2;
      }
      ClockStep(steps, Step(values, dt));
      vclock := (vclock + dt) % WORD;
      frameIndex := (frameIndex + 1) % WORD;
      steps := steps + [Step(values, dt)];
      return 0;
    }

    /** Frame changes take the step of the frame that ends. */
    method TurnTo(run: Run<Text, Text>, cycle: int) returns (next: Run<Text, Text>)
      requires Counts() && steps == run.steps
      modifies this
      ensures next == Turn(d.target, run, cycle) && steps == next.steps && Counts()
    {
      next := run;
      if cycle != run.current {
        if run.current >= 0 {
          var code := TakeStep(run.values, run.dt);
        }
        next := Run(cycle, run.values, d.target.period, steps);
      }
    }

    method ReadRecord(run: Run<Text, Text>, line: Text) returns (next: Run<Text, Text>, ok: bool)
      requires Counts() && steps == run.steps
      modifies this
      ensures OnLine(d, run, line) == if ok then Going(next) else Refused(next)
      ensures steps == next.steps && Counts()
    {
      next, ok := run, true;
      var split := SplitRecord(line);
      if split.Absent? {
        return;
      }
      var (name, value) := split.value;
      var cycle := 0;
      var dot := Find(name, '.', 0);
      if dot < |name| {
        cycle, name := Atoi(d, name[..dot]), name[dot + 1..];
      }
      if name == DT_NAME {
        var dt := UnsignedDt(d, value);
        if dt.Raised? {
          return run, false;
        }
        next := TurnTo(run, cycle);
        next := next.(dt := dt.value);
      } else {
        next := TurnTo(run, cycle);
        if name in d.target.fields {
          if !d.target.accepts(name, value) {
            return next, false;
          }
          next := next.(values := next.values[name := value]);
        }
      }
    }

    method CopyLine(ls: seq<Sorted>, i: nat, shared: Text, frames: Text) returns (shared': Text, frames': Text)
      requires i < |ls| && shared == Written(ls, SharedLine, i) && frames == Written(ls, FrameLine, i)
      ensures shared' == Written(ls, SharedLine, i + 1) && frames' == Written(ls, FrameLine, i + 1)
    {
      shared', frames' := shared, frames;
      WrittenStep(ls, SharedLine, i);
      WrittenStep(ls, FrameLine, i);
      match ls[i].kind
      case FrameLine => frames' := frames + (ls[i].text + ['\n']);
      case SharedLine => shared' := shared + (ls[i].text + ['\n']);
      case NoRecord =>
    }

    /** The copy of the lines into the two buffers of `length` + 1 characters. */
    method Separate(ls: seq<Sorted>, length: nat) returns (shared: Text, frames: Text, ok: bool)
      ensures ok == Fits(ls, |ls|, length)
      ensures ok ==> shared == Written(ls, SharedLine, |ls|) && frames == Written(ls, FrameLine, |ls|)
    {
      shared, frames := [], [];
      var i := 0;
      while i < |ls|
        invariant i <= |ls|
        invariant shared == Written(ls, SharedLine, i) && frames == Written(ls, FrameLine, i)
        invariant Fits(ls, i, length)
      {
        var kind := ls[i].kind;
        var used := if kind == FrameLine then |frames| else |shared|;
        LineOverruns(ls, i, length);
        if kind != NoRecord && used + |ls[i].text| + 2 > length + 1 {
          OverrunStays(ls, i + 1, |ls|, length);
          return shared, frames, false;
        }
        shared, frames := CopyLine(ls, i, shared, frames);
        i := i + 1;
      }
      return shared, frames, true;
    }

    method ReadNext(records: seq<Text>, i: nat, run: Run<Text, Text>) returns (next: Run<Text, Text>, ok: bool)
      requires i < |records| && RunLines(d, records, i) == Going(run) && Counts() && steps == run.steps
      modifies this
      ensures RunLines(d, records, i + 1) == if ok then Going(next) else Refused(next)
      ensures steps == next.steps && Counts()
    {
      next, ok := ReadRecord(run, records[i]);
    }

    method RunRecords(records: seq<Text>) returns (run: Run<Text, Text>, ok: bool)
      requires Counts() && steps == []
      modifies this
      ensures RunLines(d, records, |records|) == if ok then Going(run) else Refused(run)
      ensures steps == run.steps && Counts()
    {
      run, ok := Start(d.target), true;
      var i := 0;
      while i < |records|
        invariant i <= |records| && ok
        invariant RunLines(d, records, i) == Going(run) && steps == run.steps && Counts()
      {
        run, ok := ReadNext(records, i, run);
        if !ok {
          RefusedStays(d, records, i + 1, |records|);
          return;
        }
        i := i + 1;
      }
    }

    method Execute(data: Text) returns (exit: Exit)
      modifies this
      ensures exit == Executed(d, data)
      ensures !exit.Aborted? ==> steps == exit.steps
      ensures exit.Finished? ==> Counts()
    {
      var shared, frames, fits := Separate(Sort(Tokens(data)), |data|);
      if !fits {
        return Aborted;
      }
      var code := Init(shared);
      if code != 0 {
        return Rejected([]);
      }
      var run, ok := RunRecords(Tokens(frames));
      if !ok {
        return Rejected(steps);
      }
      code := TakeStep(run.values, run.dt);
      return Finished(steps);
    }
  }

  lemma {:induction false} RefusedStays(d: Device, lines: seq<Text>, i: nat, n: nat)
    requires i <= n <= |lines| && RunLines(d, lines, i).Refused?
    ensures RunLines(d, lines, n) == RunLines(d, lines, i)
  {
    if i < n { RefusedStays(d, lines, i, n - 1); }
  }

  lemma {:induction false} ClockStep(steps: seq<Step<Text, Text>>, s: Step<Text, Text>)
    ensures Clock(steps + [s], |steps| + 1) == (Clock(steps, |steps|) + s.dt) % WORD
    ensures (|steps| % WORD + 1) % WORD == (|steps| + 1) % WORD
  {
    ClockPrefix(steps, [s], |steps|);
    WrapTwice(|steps|, 1);
  }

  lemma {:induction false} ClockPrefix(a: seq<Step<Text, Text>>, b: seq<Step<Text, Text>>, n: nat)
    requires n <= |a|
    ensures Clock(a + b, n) == Clock(a, n)
  {
    if n > 0 { ClockPrefix(a, b, n - 1); }
  }

  lemma {:induction false} SmallWrap(n: nat)
    requires n < WORD
    ensures n % WORD == n
  {}

  method ExecuteText(d: Device, text: Text, ghost expected: seq<Step<Text, Text>>) returns (h: Harness, exit: Exit)
    requires Executed(d, text) == Finished(expected) && |expected| < WORD
    ensures exit == Finished(expected) && h.steps == expected
    ensures h.frameIndex == |expected| && h.vclock == Elapsed(expected, |expected|) % WORD
  {
    h := new Harness(d);
    exit := h.Execute(text);
    ClockIsElapsed(expected, |expected|);
    SmallWrap(|expected|);
  }

  /** One run of a canonical testcase: the steps of its frames, their number, and the sum of their delta_t. */
  method ExecuteCanonical(d: Device, abi: Abi, tc: TestCase<Text, Text>) returns (h: Harness, exit: Exit)
    requires Ready(d, abi, tc)
    ensures var steps := StepsOf(d.target, tc.frames, |tc.frames|);
            && exit == Finished(steps)
            && h.steps == steps
            && h.frameIndex == |tc.frames|
            && h.vclock == Elapsed(steps, |steps|) % WORD
  {
    CanonicalExecutes(d, abi, tc);
    h, exit := ExecuteText(d, CanonicalText(abi, tc, true), StepsOf(d.target, tc.frames, |tc.frames|));
  }
}
