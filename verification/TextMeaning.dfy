/** What a testcase text says, without the loops over its characters: how fuzzer/corpus/frames.py splits it into
    lines, trims and cuts them, and which records they are. */
module TextMeaning {
  import opened Wrappers
  import opened RecordText
  import opened FrameCases
  import opened FrameMeaning
  import opened FrameText

  // ----- characters

  /** The characters that end a line. */
  const BREAKS: Text := ['\n', '\U{B}', '\U{C}', '\r', '\U{1C}', '\U{1D}', '\U{1E}', '\U{85}', '\U{2028}', '\U{2029}']

  /** The white space that does not. */
  const BLANKS: Text := ['\t', '\U{1F}', ' ', '\U{A0}', '\U{1680}', '\U{2000}', '\U{2001}', '\U{2002}', '\U{2003}', '\U{2004}', '\U{2005}',
                         '\U{2006}', '\U{2007}', '\U{2008}', '\U{2009}', '\U{200A}', '\U{202F}', '\U{205F}', '\U{3000}']

  lemma {:induction false} BreaksListed(c: char)
    ensures Break(c) <==> c in BREAKS
  {
  }

  lemma {:induction false} SpacesListed(c: char)
    ensures Space(c) <==> c in BREAKS || c in BLANKS
  {
  }

  // ----- lines

  /** The lines, with one break between each two, make up the text. */
  predicate Rejoins(s: Text, lines: seq<Text>)
    decreases |lines|
  {
    && lines != []
    && var last := lines[|lines| - 1];
       var at := |s| - |last|;
    && Unbroken(last) && at >= 0 && s[at..] == last
    && if |lines| == 1 then at == 0 else at > 0 && Break(s[at - 1]) && Rejoins(s[..at - 1], lines[..|lines| - 1])
  }

  lemma {:induction false} FeedRejoins(s: Text, n: nat)
    requires n <= |s|
    ensures var cut := Feed(Cut([], []), s, n); Rejoins(s[..n], cut.lines + [cut.current])
  {
    if n > 0 {
      FeedRejoins(s, n - 1);
      var cut := Feed(Cut([], []), s, n - 1);
      assert s[..n] == s[..n - 1] + [s[n - 1]];
      if Break(s[n - 1]) { RejoinsBreak(s[..n - 1], cut.lines + [cut.current], s[n - 1]); }
      else { RejoinsMore(s[..n - 1], cut.lines, cut.current, s[n - 1]); }
    }
  }

  lemma {:induction false} RejoinsBreak(s: Text, lines: seq<Text>, c: char)
    requires Rejoins(s, lines) && Break(c)
    ensures Rejoins(s + [c], lines + [[]])
  {
    var more, t := lines + [[]], s + [c];
    assert more[..|more| - 1] == lines && t[..|t| - 1] == s && t[|t|..] == [];
  }

  lemma {:induction false} RejoinsMore(s: Text, front: seq<Text>, last: Text, c: char)
    requires Rejoins(s, front + [last]) && !Break(c)
    ensures Rejoins(s + [c], front + [last + [c]])
  {
    var lines, more, t := front + [last], front + [last + [c]], s + [c];
    assert lines[..|lines| - 1] == front && more[..|more| - 1] == front;
    var at := |s| - |last|;
    assert t[at..] == s[at..] + [c];
    if at > 0 { assert t[..at - 1] == s[..at - 1]; }
  }

  /** Splitting cuts at every break and nowhere else. */
  lemma {:induction false} SplitRejoins(s: Text)
    ensures Rejoins(s, SplitLines(s))
  {
    FeedRejoins(s, |s|);
    assert s[..|s|] == s;
  }

  // ----- trimming

  predicate AllSpace(s: Text) {
    forall i :: 0 <= i < |s| ==> Space(s[i])
  }

  lemma {:induction false} SpaceInFront(c: char, a: Text, x: Text, b: Text)
    requires Space(c) && AllSpace(a)
    ensures AllSpace([c] + a) && [c] + (a + x + b) == [c] + a + x + b
  {
  }

  lemma {:induction false} SpaceBehind(a: Text, x: Text, b: Text, c: char)
    requires Space(c) && AllSpace(b)
    ensures AllSpace(b + [c]) && a + x + b + [c] == a + x + (b + [c])
  {
  }

  /** Spaces at both ends are removed. */
  lemma {:induction false} StripIs(s: Text) returns (a: Text, b: Text)
    ensures s == a + Strip(s) + b && AllSpace(a) && AllSpace(b)
    decreases |s|
  {
    a, b := [], [];
    if s != [] {
      if Space(s[0]) {
        a, b := StripIs(s[1..]);
        SpaceInFront(s[0], a, Strip(s), b);
        a := [s[0]] + a;
      } else if Space(s[|s| - 1]) {
        a, b := StripIs(s[..|s| - 1]);
        SpaceBehind(a, Strip(s), b, s[|s| - 1]);
        b := b + [s[|s| - 1]];
      }
    }
  }

  // ----- the parts of a record

  /** The line is cut at its first two commas. */
  predicate PartsOf(s: Text, name: Text, ty: Text, value: Text) {
    s == Line(name, ty, value) && Lacks(name, ',') && Lacks(ty, ',')
  }

  /** Fewer than two commas. */
  ghost predicate NoParts(s: Text) {
    forall name, ty, value :: !PartsOf(s, name, ty, value)
  }

  lemma {:induction false} FindNone(s: Text, c: char, i: nat)
    requires i <= |s| && Find(s, c, i) == |s|
    ensures forall j :: i <= j < |s| ==> s[j] != c
    decreases |s| - i
  {
    if i < |s| { FindNone(s, c, i + 1); }
  }

  lemma {:induction false} FindLacks(s: Text, c: char, i: nat)
    requires i <= |s|
    ensures Lacks(s[i..Find(s, c, i)], c)
    decreases |s| - i
  {
    var k := Find(s, c, i);
    if i < |s| && s[i] != c {
      FindLacks(s, c, i + 1);
      assert s[i..k] == [s[i]] + s[i + 1..k];
    }
  }

  /** A line that is not blank is read from its parts, each trimmed, or refused when it has none. */
  lemma {:induction false} LineRead(abi: Abi, raw: Text) returns (name: Text, ty: Text, value: Text)
    ensures var s := Strip(raw);
            if s == [] then ReadLine(abi, raw) == Done(Absent)
            else if NoParts(s) then ReadLine(abi, raw) == Raised
            else PartsOf(s, name, ty, value) && ReadLine(abi, raw) == ReadParts(abi, Strip(name), Strip(ty), Strip(value))
  {
    var s := Strip(raw);
    name, ty, value := [], [], [];
    if NoParts(s) {
      NotCut(s);
    } else {
      name, ty, value :| PartsOf(s, name, ty, value);
      PartsRead(abi, raw, name, ty, value);
    }
  }

  lemma {:induction false} PartsRead(abi: Abi, raw: Text, name: Text, ty: Text, value: Text)
    requires PartsOf(Strip(raw), name, ty, value)
    ensures Strip(raw) != [] && ReadLine(abi, raw) == ReadParts(abi, Strip(name), Strip(ty), Strip(value))
  {
    CutLine(name, ty, value);
  }

  lemma {:induction false} NotCut(s: Text)
    requires NoParts(s)
    ensures var a := Find(s, ',', 0); a == |s| || Find(s, ',', a + 1) == |s|
  {
    var a := Find(s, ',', 0);
    if a < |s| && Find(s, ',', a + 1) < |s| {
      var b := Find(s, ',', a + 1);
      FindLacks(s, ',', 0);
      FindLacks(s, ',', a + 1);
      assert s == Line(s[0..a], s[a + 1..b], s[b + 1..]);
      assert PartsOf(s, s[0..a], s[a + 1..b], s[b + 1..]);
    }
  }

  // ----- frame prefixes

  /** Digits, a dot, and more. */
  predicate Prefix(name: Text, digits: Text, field: Text) {
    name == digits + ['.'] + field && digits != [] && AllDigits(digits) && field != []
  }

  lemma {:induction false} SplitCycleIs(name: Text, digits: Text, field: Text)
    ensures Prefix(name, digits, field) ==> SplitCycle(name) == (Given(Value(digits, |digits|)), field)
    ensures SplitCycle(name).0.Given? ==> Prefix(name, name[..DigitRun(name, 0)], SplitCycle(name).1)
    ensures SplitCycle(name).0.Absent? ==> SplitCycle(name).1 == name && !Prefix(name, digits, field)
  {
    var d := DigitRun(name, 0);
    if Prefix(name, digits, field) {
      assert forall j :: 0 <= j < |digits| ==> name[j] == digits[j];
      assert name[|digits|] == '.';
      DigitRunAt(name, 0, |digits|);
      assert name[..d] == digits && name[d + 1..] == field;
    }
    if SplitCycle(name).0.Given? {
      assert name == name[..d] + ['.'] + name[d + 1..];
    }
  }

  // ----- declared names

  /** n is the last of the names that is spelled so, in any case. */
  ghost predicate Names(abi: Abi, names: seq<Text>, spelled: Text, n: Text) {
    exists i :: 0 <= i < |names| && names[i] == n && abi.upper(n) == abi.upper(spelled)
             && forall j :: i < j < |names| ==> abi.upper(names[j]) != abi.upper(spelled)
  }

  ghost predicate NamesNone(abi: Abi, names: seq<Text>, spelled: Text) {
    forall i :: 0 <= i < |names| ==> abi.upper(names[i]) != abi.upper(spelled)
  }

  lemma {:induction false} LookupIs(abi: Abi, names: seq<Text>, key: Text, n: nat)
    requires n <= |names|
    ensures match Lookup(abi, names, key, n)
            case Absent => forall i :: 0 <= i < n ==> abi.upper(names[i]) != key
            case Given(x) => exists i :: 0 <= i < n && names[i] == x && abi.upper(x) == key
                                      && forall j :: i < j < n ==> abi.upper(names[j]) != key
  {
    if n > 0 {
      LookupIs(abi, names, key, n - 1);
      if abi.upper(names[n - 1]) == key { assert 0 <= n - 1 < n && names[n - 1] == names[n - 1]; }
    }
  }

  /** The type token is left out or the expected one, in any case. */
  predicate TypeFits(abi: Abi, ty: Text, expected: Text) {
    ty == [] || abi.upper(ty) == [] || abi.upper(ty) == abi.upper(expected)
  }

  /** What the parts of a record say. */
  ghost predicate Says(abi: Abi, name: Text, ty: Text, value: Text, out: Outcome<Maybe<Rec<Text, Text>>>) {
    if name == [] then out == Raised
    else
      var (cycle, field) := SplitCycle(name);
      match cycle
      case Absent =>
        if abi.upper(name) == "__INIT" then out == if TypeFits(abi, ty, "ENUM") && value == "cold" then Done(Absent) else Raised
        else
          || (NamesNone(abi, abi.shared, name) && out == Raised)
          || exists n :: Names(abi, abi.shared, name, n)
                      && out == if TypeFits(abi, ty, abi.token(n)) then Done(Given(SharedRec(n, value))) else Raised
      case Given(k) =>
        if abi.upper(field) == "__DT" then
          if !TypeFits(abi, ty, "TIME") then out == Raised
          else if IsDecimal(value) then out == Done(Given(DtRec(k, Value(value, |value|))))
          else out == match abi.otherDt(value) case Raised => Raised case Done(dt) => Done(Given(DtRec(k, dt)))
        else
          || (NamesNone(abi, abi.fields, field) && out == Raised)
          || exists n :: Names(abi, abi.fields, field, n)
                      && out == if TypeFits(abi, ty, abi.token(n)) then Done(Given(FieldRec(k, n, value))) else Raised
  }

  lemma {:induction false} PartsSay(abi: Abi, name: Text, ty: Text, value: Text)
    ensures Says(abi, name, ty, value, ReadParts(abi, name, ty, value))
  {
    var (cycle, field) := SplitCycle(name);
    if cycle.Given? { LookupIs(abi, abi.fields, abi.upper(field), |abi.fields|); } else { LookupIs(abi, abi.shared, abi.upper(name), |abi.shared|); }
  }

  // ----- the whole text

  /** What one line says. */
  ghost predicate LineSays(abi: Abi, raw: Text, out: Outcome<Maybe<Rec<Text, Text>>>) {
    var s := Strip(raw);
    if s == [] then out == Done(Absent)
    else if NoParts(s) then out == Raised
    else exists name, ty, value :: PartsOf(s, name, ty, value) && Says(abi, Strip(name), Strip(ty), Strip(value), out)
  }

  lemma {:induction false} LineMeans(abi: Abi, raw: Text)
    ensures LineSays(abi, raw, ReadLine(abi, raw))
  {
    var name, ty, value := LineRead(abi, raw);
    PartsSay(abi, Strip(name), Strip(ty), Strip(value));
  }

  /** The records of the lines in order, blank and init lines left out. */
  ghost predicate RecordsOf(abi: Abi, lines: seq<Text>, rs: seq<Rec<Text, Text>>)
    decreases |lines|
  {
    if lines == [] then rs == []
    else
      var front, last := lines[..|lines| - 1], lines[|lines| - 1];
      || (LineSays(abi, last, Done(Absent)) && RecordsOf(abi, front, rs))
      || (rs != [] && LineSays(abi, last, Done(Given(rs[|rs| - 1]))) && RecordsOf(abi, front, rs[..|rs| - 1]))
  }

  lemma {:induction false} RecordsNext(abi: Abi, front: seq<Text>, last: Text, rs: seq<Rec<Text, Text>>, out: Outcome<Maybe<Rec<Text, Text>>>)
    requires RecordsOf(abi, front, rs) && LineSays(abi, last, out) && out.Done?
    ensures RecordsOf(abi, front + [last], if out.value.Given? then rs + [out.value.value] else rs)
  {
    var lines := front + [last];
    assert lines[..|lines| - 1] == front && lines[|lines| - 1] == last;
    if out.value.Given? { assert (rs + [out.value.value])[..|rs|] == rs; }
  }

  lemma {:induction false} GatherRecords(abi: Abi, lines: seq<Text>, n: nat) returns (i: nat)
    requires n <= |lines|
    ensures match Gather(ReadEach(abi, lines), n)
            case Done(rs) => RecordsOf(abi, lines[..n], rs)
            case Raised => i < n && LineSays(abi, lines[i], Raised)
  {
    i := 0;
    if n > 0 {
      i := GatherRecords(abi, lines, n - 1);
      LineMeans(abi, lines[n - 1]);
      var before, out := Gather(ReadEach(abi, lines), n - 1), ReadEach(abi, lines)[n - 1];
      if before.Done? {
        if out.Done? {
          assert lines[..n] == lines[..n - 1] + [lines[n - 1]];
          RecordsNext(abi, lines[..n - 1], lines[n - 1], before.value, out);
        } else {
          i := n - 1;
        }
      }
    }
  }

  /** A text is accepted with the testcase that its records describe; it is refused for a line, or because its
      records describe no testcase. */
  lemma {:induction false} TextMeans(abi: Abi, text: Text, o: Options) returns (rs: seq<Rec<Text, Text>>, i: nat)
    ensures var lines := SplitLines(text);
            match ParseText(abi, text, o)
            case Done(tc) => RecordsOf(abi, lines, rs) && Reads(SchemaOf(abi), rs, o, tc)
            case Raised =>
              || (i < |lines| && LineSays(abi, lines[i], Raised))
              || (RecordsOf(abi, lines, rs) && forall tc :: !Reads(SchemaOf(abi), rs, o, tc))
  {
    var lines := SplitLines(text);
    i := GatherRecords(abi, lines, |lines|);
    assert lines[..|lines|] == lines;
    rs := match ReadText(abi, text) case Done(records) => records case Raised => [];
    if ReadText(abi, text).Done? {
      forall tc ensures Parse(SchemaOf(abi), rs, o) == Done(tc) <==> Reads(SchemaOf(abi), rs, o, tc) {
        ParseReads(SchemaOf(abi), rs, o, tc);
      }
    }
  }
}
