/** What `semantist_v3_execute` (compiler/harness/v3gen.py) does with a text, by the positions of its frame
    records. */
module ExecutorMeaning {
  import opened Wrappers
  import opened RecordText
  import opened FrameText
  import opened TextMeaning
  import opened FrameCases
  import opened ScanRun
  import opened ScanMeaning
  import opened Executor

  // ----- the lines of a C string

  predicate Feeds(s: Text) {
    forall i :: 0 <= i < |s| ==> s[i] == '\n'
  }

  /** The tokens, none of them empty, are the stretches of the text between line feeds. */
  ghost predicate Stretches(s: Text, tokens: seq<Text>)
    decreases |tokens|
  {
    if tokens == [] then Feeds(s)
    else
      var last := tokens[|tokens| - 1];
      Token(last) && exists at: nat :: StretchAt(s, last, at) && (if at == 0 then |tokens| == 1 else
                                       s[at - 1] == '\n' && Stretches(s[..at - 1], tokens[..|tokens| - 1]))
  }

  /** The stretch stands at `at`, and only line feeds follow it. */
  predicate StretchAt(s: Text, last: Text, at: nat) {
    at + |last| <= |s| && s[at..at + |last|] == last && Feeds(s[at + |last|..])
  }

  lemma {:induction false} FeedMore(s: Text, tokens: seq<Text>)
    requires Stretches(s, tokens)
    ensures Stretches(s + ['\n'], tokens)
  {
    var t := s + ['\n'];
    if tokens != [] {
      var last := tokens[|tokens| - 1];
      var at: nat :| StretchAt(s, last, at) && (if at == 0 then |tokens| == 1 else
                                                s[at - 1] == '\n' && Stretches(s[..at - 1], tokens[..|tokens| - 1]));
      assert t[at..at + |last|] == s[at..at + |last|] && t[at + |last|..] == s[at + |last|..] + ['\n'];
      assert StretchAt(t, last, at);
      if at > 0 { assert t[..at - 1] == s[..at - 1]; }
    }
  }

  /** What has been read: whole tokens, a line feed behind them unless nothing came before, and the token being read. */
  predicate Behind(s: Text, current: Text) {
    |current| <= |s| && s[|s| - |current|..] == current && (|s| > |current| ==> s[|s| - |current| - 1] == '\n')
  }

  function Head(s: Text, current: Text): Text
    requires |current| <= |s|
  {
    s[..if |s| > |current| then |s| - |current| - 1 else 0]
  }

  /** The lines are the stretches of what lies before the token being read. */
  ghost predicate Cutting(p: Text, cut: Cut) {
    && Lacks(cut.current, '\n') && Behind(p, cut.current)
    && (|p| == |cut.current| ==> cut.lines == [])
    && Stretches(Head(p, cut.current), cut.lines)
  }

  lemma {:induction false} TokenizeStretches(s: Text, n: nat)
    requires n <= |s|
    ensures Cutting(s[..n], Tokenize(s, n))
  {
    if n > 0 {
      TokenizeStretches(s, n - 1);
      var cut, p, c := Tokenize(s, n - 1), s[..n - 1], s[n - 1];
      assert s[..n] == p + [c];
      if c != '\n' { RunsOn(p, cut, c); }
      else if cut.current == [] { EmptyStretch(p, cut.lines); }
      else { StretchEnds(p, cut.lines, cut.current); }
    } else {
      assert Head([], []) == [];
    }
  }

  lemma {:induction false} RunsOn(p: Text, cut: Cut, c: char)
    requires Cutting(p, cut) && c != '\n'
    ensures Cutting(p + [c], Cut(cut.lines, cut.current + [c]))
  {
    var q, current := p + [c], cut.current + [c];
    var at := |p| - |cut.current|;
    assert q[at..] == p[at..] + [c];
    assert Head(q, current) == Head(p, cut.current);
  }

  lemma {:induction false} FeedAtEnd(p: Text)
    ensures Behind(p + ['\n'], []) && Head(p + ['\n'], []) == p
  {
    assert (p + ['\n'])[|p| + 1..] == [] && (p + ['\n'])[..|p|] == p;
  }

  lemma {:induction false} EmptyStretch(p: Text, lines: seq<Text>)
    requires Cutting(p, Cut(lines, []))
    ensures Cutting(p + ['\n'], Cut(lines, []))
  {
    FeedAtEnd(p);
    HeadStretches(p, lines);
  }

  lemma {:induction false} HeadStretches(p: Text, lines: seq<Text>)
    requires Cutting(p, Cut(lines, []))
    ensures Stretches(p, lines)
  {
    if |p| > 0 {
      assert p == Head(p, []) + ['\n'];
      FeedMore(Head(p, []), lines);
    } else {
      assert Head(p, []) == p;
    }
  }

  lemma {:induction false} LastStretch(p: Text, lines: seq<Text>, current: Text)
    requires current != [] && Cutting(p, Cut(lines, current))
    ensures Stretches(p, lines + [current])
  {
    var all, at := lines + [current], |p| - |current|;
    assert all[..|all| - 1] == lines && all[|all| - 1] == current;
    assert p[at..at + |current|] == current && p[at + |current|..] == [];
    assert StretchAt(p, current, at);
  }

  /** A line feed ends the token being read. */
  lemma {:induction false} StretchEnds(p: Text, lines: seq<Text>, current: Text)
    requires current != [] && Cutting(p, Cut(lines, current))
    ensures Cutting(p + ['\n'], Cut(lines + [current], []))
  {
    FeedAtEnd(p);
    LastStretch(p, lines, current);
  }

  /** `strtok_r` yields the stretches between line feeds. */
  lemma {:induction false} TokensMean(s: Text)
    ensures Stretches(s, Tokens(s))
  {
    TokenizeStretches(s, |s|);
    assert s[..|s|] == s;
    var cut := Tokenize(s, |s|);
    if cut.current != [] { LastStretch(s, cut.lines, cut.current); } else { HeadStretches(s, cut.lines); }
  }

  // ----- the buffer of a line

  /** Digits, if any, and then a dot. */
  predicate Dotted(line: Text, k: nat) {
    k < |line| && line[k] == '.' && forall i :: 0 <= i < k ==> IsDigit(line[i])
  }

  /** A line without a comma is no record; one that starts with digits and a dot is a frame record; others are shared. */
  lemma {:induction false} KindExactly(line: Text)
    ensures KindOf(line) == NoRecord <==> Lacks(line, ',')
    ensures KindOf(line) == FrameLine <==> !Lacks(line, ',') && exists k: nat :: Dotted(line, k)
  {
    var d, c := DigitRun(line, 0), Find(line, ',', 0);
    if c == |line| {
      FindNone(line, ',', 0);
    } else {
      assert line[c] == ',';
      if d < |line| && line[d] == '.' { assert Dotted(line, d); }
      if k: nat :| Dotted(line, k) { DigitRunAt(line, 0, k); }
    }
  }

  /** `split_record`: the name before the first comma and the value behind the second, or nothing. */
  lemma {:induction false} RecordSplit(line: Text)
    ensures forall name, ty, value :: PartsOf(line, name, ty, value) ==> SplitRecord(line) == Given((name, value))
    ensures NoParts(line) ==> SplitRecord(line) == Absent
  {
    forall name, ty, value | PartsOf(line, name, ty, value) ensures SplitRecord(line) == Given((name, value)) {
      CutLine(name, ty, value);
    }
    if NoParts(line) { NotCut(line); }
  }

  /** A number of digits below 2^31 is read as it is; what `atoi` makes of others is left open. */
  lemma {:induction false} NumberRead(d: Device, k: nat)
    ensures k < 2147483648 ==> Atoi(d, Decimal(k)) == k
    ensures k >= 2147483648 ==> Atoi(d, Decimal(k)) == d.largeAtoi(Decimal(k))
  {
    ValueOfDecimal(k);
  }

  // ----- records

  /** What a line of the frame buffer gives: nothing, a record, or a delta_t that cannot be read. */
  datatype Reading = Skipped | Read(entry: Entry<Text, Text>) | BadDt

  function ReadingOf(d: Device, line: Text): Reading {
    match SplitRecord(line)
    case Absent => Skipped
    case Given((name, value)) =>
      var dot := Find(name, '.', 0);
      if dot == |name| then ReadAs(d, 0, name, value) else ReadAs(d, Atoi(d, name[..dot]), name[dot + 1..], value)
  }

  function ReadAs(d: Device, cycle: int, name: Text, value: Text): Reading {
    if name != DT_NAME then Read(FieldEntry(cycle, name, value))
    else
      match UnsignedDt(d, value)
      case Raised => BadDt
      case Done(dt) => Read(DtEntry(cycle, dt))
  }

  predicate Good(d: Device, line: Text) {
    match ReadingOf(d, line)
    case Skipped => true
    case Read(e) => Fine(d.target, e)
    case BadDt => false
  }

  predicate AllGood(d: Device, lines: seq<Text>, n: nat)
    requires n <= |lines|
  {
    n == 0 || (AllGood(d, lines, n - 1) && Good(d, lines[n - 1]))
  }

  /** The records of the first n lines. */
  function EntriesOf(d: Device, lines: seq<Text>, n: nat): seq<Entry<Text, Text>>
    requires n <= |lines|
  {
    if n == 0 then []
    else
      match ReadingOf(d, lines[n - 1])
      case Read(e) => EntriesOf(d, lines, n - 1) + [e]
      case _ => EntriesOf(d, lines, n - 1)
  }

  lemma {:induction false} LineIsEntry(d: Device, run: Run<Text, Text>, line: Text)
    ensures OnLine(d, run, line) == match ReadingOf(d, line)
                                    case Skipped => Going(run)
                                    case Read(e) => OnEntry(d.target, run, e)
                                    case BadDt => Refused(run)
  {
  }

  /** Line i is the first that is refused; the steps are those of the frames that have ended by then. */
  ghost predicate RefusedLine(d: Device, lines: seq<Text>, es: seq<Entry<Text, Text>>, i: nat, steps: seq<Step<Text, Text>>)
    requires i < |lines|
  {
    && !Good(d, lines[i]) && AllGood(d, lines, i)
    && EntriesOf(d, lines, i + 1) <= es
    && StepsMean(d.target, es, Ends(es, |EntriesOf(d, lines, i + 1)|), steps)
  }

  lemma {:induction false} LinesMean(d: Device, lines: seq<Text>, n: nat, es: seq<Entry<Text, Text>>) returns (i: nat)
    requires n <= |lines| && EntriesOf(d, lines, n) <= es
    ensures match RunLines(d, lines, n)
            case Going(run) => AllGood(d, lines, n) && Gathers(d.target, es, |EntriesOf(d, lines, n)|, run)
            case Refused(run) => i < n && RefusedLine(d, lines, es, i, run.steps)
  {
    i := 0;
    if n == 0 {
      NothingMeans(d.target, es);
    } else {
      EntriesGrow(d, lines, n, es);
      i := LinesMean(d, lines, n - 1, es);
      if RunLines(d, lines, n - 1).Going? {
        i := n - 1;
        LineMeans(d, lines, i, es, RunLines(d, lines, i).run);
      }
    }
  }

  lemma {:induction false} EntriesGrow(d: Device, lines: seq<Text>, n: nat, es: seq<Entry<Text, Text>>)
    requires 0 < n <= |lines| && EntriesOf(d, lines, n) <= es
    ensures EntriesOf(d, lines, n - 1) <= es
    ensures var at, r := |EntriesOf(d, lines, n - 1)|, ReadingOf(d, lines[n - 1]);
            if r.Read? then at < |es| && es[at] == r.entry && |EntriesOf(d, lines, n)| == at + 1
            else |EntriesOf(d, lines, n)| == at
  {
  }

  lemma {:induction false} LineMeans(d: Device, lines: seq<Text>, n: nat, es: seq<Entry<Text, Text>>, run: Run<Text, Text>)
    requires n < |lines| && EntriesOf(d, lines, n + 1) <= es && EntriesOf(d, lines, n) <= es
    requires AllGood(d, lines, n)
    requires Gathers(d.target, es, |EntriesOf(d, lines, n)|, run)
    ensures match OnLine(d, run, lines[n])
            case Going(next) => Good(d, lines[n]) && Gathers(d.target, es, |EntriesOf(d, lines, n + 1)|, next)
            case Refused(next) => RefusedLine(d, lines, es, n, next.steps)
  {
    EntriesGrow(d, lines, n + 1, es);
    LineIsEntry(d, run, lines[n]);
    if ReadingOf(d, lines[n]).Read? {
      EntryMeans(d.target, es, |EntriesOf(d, lines, n)|, run);
    }
  }

  /** The lines of the frame buffer. */
  function FrameLines(data: Text): seq<Text> {
    var ls := Sort(Tokens(data));
    Tokens(Written(ls, FrameLine, |ls|))
  }

  /** Every step runs with the last value of each field at or before the end of its frame: no value is lost between
      frames. The text is refused at line i, or before the first when the shared records are. */
  lemma {:induction false} ExecutedMeans(d: Device, data: Text) returns (i: nat)
    ensures var t, ls, lines := d.target, Sort(Tokens(data)), FrameLines(data);
            var es := EntriesOf(d, lines, |lines|);
            match Executed(d, data)
            case Aborted => !Fits(ls, |ls|, |data|)
            case Finished(steps) =>
              && d.initOk(Written(ls, SharedLine, |ls|))
              && AllGood(d, lines, |lines|) && StepsMean(t, es, Ends(es, |es|) + [|es|], steps)
            case Rejected(steps) =>
              if d.initOk(Written(ls, SharedLine, |ls|)) then i < |lines| && RefusedLine(d, lines, es, i, steps) else steps == []
  {
    var t, lines := d.target, FrameLines(data);
    var es := EntriesOf(d, lines, |lines|);
    i := LinesMean(d, lines, |lines|, es);
    match RunLines(d, lines, |lines|)
    case Going(run) => StepsAdded(t, es, Ends(es, |es|), run.steps, |es|, Step(run.values, run.dt));
    case Refused(_) =>
  }
}
