/** The record lines of fuzzer/corpus/frames.py, character by character: printing, splitting and reading. */
module RecordText {
  import opened Wrappers

  type Text = seq<char>

  // ----- decimal numbers

  predicate IsDigit(c: char) {
    '0' <= c <= '9'
  }

  function DigitOf(d: nat): char
    requires d < 10
  {
    '0' + d as char
  }

  function DigitValue(c: char): nat
    requires IsDigit(c)
  {
    (c - '0') as nat
  }

  predicate AllDigits(s: Text) {
    forall i :: 0 <= i < |s| ==> IsDigit(s[i])
  }

  function Decimal(n: nat): (s: Text)
    ensures |s| > 0 && AllDigits(s)
  {
    if n < 10 then [DigitOf(n)] else Decimal(n / 10) + [DigitOf(n % 10)]
  }

  /** The number that the first n digits spell. */
  function Value(s: Text, n: nat): nat
    requires n <= |s| && AllDigits(s)
  {
    if n == 0 then 0 else 10 * Value(s, n - 1) + DigitValue(s[n - 1])
  }

  lemma {:induction false} ValueOfPrefix(a: Text, b: Text, n: nat)
    requires n <= |a| && n <= |b| && AllDigits(a) && AllDigits(b) && forall i :: 0 <= i < n ==> a[i] == b[i]
    ensures Value(a, n) == Value(b, n)
  {
    if n > 0 { ValueOfPrefix(a, b, n - 1); }
  }

  lemma {:induction false} ValueOfDecimal(n: nat)
    ensures Value(Decimal(n), |Decimal(n)|) == n
  {
    if n < 10 {
      assert Value(Decimal(n), 0) == 0;
    } else {
      ValueOfDecimal(n / 10);
      ValueOfPrefix(Decimal(n / 10), Decimal(n), |Decimal(n)| - 1);
    }
  }

  /** A number as Python prints it: no leading zero. */
  predicate IsDecimal(s: Text) {
    s != [] && AllDigits(s) && (|s| == 1 || s[0] != '0')
  }

  lemma {:induction false} DecimalIsDecimal(n: nat)
    ensures IsDecimal(Decimal(n)) && (n > 0 ==> Decimal(n)[0] != '0')
  {
    if n >= 10 { DecimalIsDecimal(n / 10); }
  }

  // ----- spaces and line breaks

  /** What `str.strip` removes. */
  predicate Space(c: char) {
    '\t' <= c <= '\r' || '\U{1C}' <= c <= ' ' || c == '\U{85}' || c == '\U{A0}' || c == '\U{1680}'
    || '\U{2000}' <= c <= '\U{200A}' || c == '\U{2028}' || c == '\U{2029}' || c == '\U{202F}' || c == '\U{205F}' || c == '\U{3000}'
  }

  /** Where `str.splitlines` cuts. */
  predicate Break(c: char) {
    '\n' <= c <= '\r' || '\U{1C}' <= c <= '\U{1E}' || c == '\U{85}' || c == '\U{2028}' || c == '\U{2029}'
  }

  predicate Unbroken(s: Text) {
    forall i :: 0 <= i < |s| ==> !Break(s[i])
  }

  predicate Trimmed(s: Text) {
    s == [] || (!Space(s[0]) && !Space(s[|s| - 1]))
  }

  function Strip(s: Text): Text {
    if s == [] then []
    else if Space(s[0]) then Strip(s[1..])
    else if Space(s[|s| - 1]) then Strip(s[..|s| - 1])
    else s
  }

  lemma {:induction false} StripTrims(s: Text)
    ensures Trimmed(Strip(s))
    ensures Unbroken(s) ==> Unbroken(Strip(s))
    decreases |s|
  {
    if s != [] {
      if Space(s[0]) {
        StripTrims(s[1..]);
      } else if Space(s[|s| - 1]) {
        StripTrims(s[..|s| - 1]);
      }
    }
  }

  /** A text that survives as a value: trimmed and on one line. */
  predicate Clean(s: Text) {
    Trimmed(s) && Unbroken(s)
  }

  // ----- splitting into lines

  /** The lines so far and the line being read. */
  datatype Cut = Cut(lines: seq<Text>, current: Text)

  /** The first n characters of s read after `from`. */
  function Feed(from: Cut, s: Text, n: nat): Cut
    requires n <= |s|
  {
    if n == 0 then from
    else
      var cut := Feed(from, s, n - 1);
      if Break(s[n - 1]) then Cut(cut.lines + [cut.current], []) else cut.(current := cut.current + [s[n - 1]])
  }

  /** `splitlines`, except that a CR LF pair yields an empty line more, and a final break an empty last line:
      the parser skips them. */
  function SplitLines(s: Text): seq<Text> {
    var cut := Feed(Cut([], []), s, |s|);
    cut.lines + [cut.current]
  }

  function Unlines(lines: seq<Text>, n: nat): Text
    requires n <= |lines|
  {
    if n == 0 then [] else Unlines(lines, n - 1) + (lines[n - 1] + ['\n'])
  }

  lemma {:induction false} FeedAppend(from: Cut, a: Text, b: Text, n: nat)
    requires n <= |b|
    ensures Feed(from, a + b, |a| + n) == Feed(Feed(from, a, |a|), b, n)
  {
    if n == 0 {
      FeedPrefix(from, a, b, |a|);
    } else {
      FeedAppend(from, a, b, n - 1);
    }
  }

  lemma {:induction false} FeedPrefix(from: Cut, a: Text, b: Text, n: nat)
    requires n <= |a|
    ensures Feed(from, a + b, n) == Feed(from, a, n)
  {
    if n > 0 { FeedPrefix(from, a, b, n - 1); }
  }

  lemma {:induction false} FeedUnbroken(lines: seq<Text>, s: Text, n: nat)
    requires Unbroken(s) && n <= |s|
    ensures Feed(Cut(lines, []), s, n) == Cut(lines, s[..n])
  {
    if n > 0 {
      FeedUnbroken(lines, s, n - 1);
      assert s[..n] == s[..n - 1] + [s[n - 1]];
    }
  }

  lemma {:induction false} FeedLine(lines: seq<Text>, s: Text)
    requires Unbroken(s)
    ensures Feed(Cut(lines, []), s + ['\n'], |s| + 1) == Cut(lines + [s], [])
  {
    FeedUnbroken(lines, s, |s|);
    FeedPrefix(Cut(lines, []), s, ['\n'], |s|);
    assert s[..|s|] == s;
  }

  lemma {:induction false} FeedLines(lines: seq<Text>, n: nat)
    requires n <= |lines| && forall i :: 0 <= i < |lines| ==> Unbroken(lines[i])
    ensures Feed(Cut([], []), Unlines(lines, n), |Unlines(lines, n)|) == Cut(lines[..n], [])
  {
    if n > 0 {
      FeedLines(lines, n - 1);
      FeedLine(lines[..n - 1], lines[n - 1]);
      FeedAppend(Cut([], []), Unlines(lines, n - 1), lines[n - 1] + ['\n'], |lines[n - 1]| + 1);
      assert lines[..n] == lines[..n - 1] + [lines[n - 1]];
    }
  }

  /** Lines that are written one after the other are read back. */
  lemma {:induction false} SplitUnlines(lines: seq<Text>)
    requires forall i :: 0 <= i < |lines| ==> Unbroken(lines[i])
    ensures SplitLines(Unlines(lines, |lines|)) == lines + [[]]
  {
    FeedLines(lines, |lines|);
    assert lines[..|lines|] == lines;
  }

  predicate AllUnbroken(cut: Cut) {
    (forall i :: 0 <= i < |cut.lines| ==> Unbroken(cut.lines[i])) && Unbroken(cut.current)
  }

  lemma {:induction false} FeedKeepsUnbroken(s: Text, n: nat)
    requires n <= |s|
    ensures AllUnbroken(Feed(Cut([], []), s, n))
  {
    if n > 0 { FeedKeepsUnbroken(s, n - 1); }
  }

  // ----- cutting a line at its commas

  /** The first index from i on that holds c, or the length. */
  function Find(s: Text, c: char, i: nat): (k: nat)
    requires i <= |s|
    ensures i <= k <= |s|
    ensures k < |s| ==> s[k] == c
    decreases |s| - i
  {
    if i == |s| || s[i] == c then i else Find(s, c, i + 1)
  }

  predicate Lacks(s: Text, c: char) {
    forall i :: 0 <= i < |s| ==> s[i] != c
  }

  function Line(name: Text, ty: Text, value: Text): Text {
    name + [','] + ty + [','] + value
  }

  /** A line without commas in its first two parts is cut back into its parts. */
  lemma {:induction false} CutLine(name: Text, ty: Text, value: Text)
    requires Lacks(name, ',') && Lacks(ty, ',')
    ensures var s := Line(name, ty, value);
            var a := Find(s, ',', 0);
            && a == |name| < |s|
            && Find(s, ',', a + 1) == |name| + 1 + |ty| < |s|
            && s[..a] == name
            && s[a + 1..Find(s, ',', a + 1)] == ty
            && s[Find(s, ',', a + 1) + 1..] == value
  {
    var s := Line(name, ty, value);
    assert s[|name|] == ',' && s[|name| + 1 + |ty|] == ',';
    assert forall i :: 0 <= i < |name| ==> s[i] == name[i];
    assert forall i :: 0 <= i < |ty| ==> s[|name| + 1 + i] == ty[i];
    FindAt(s, ',', 0, |name|);
    FindAt(s, ',', |name| + 1, |name| + 1 + |ty|);
  }

  lemma {:induction false} FindAt(s: Text, c: char, i: nat, k: nat)
    requires i <= k < |s| && s[k] == c && forall j :: i <= j < k ==> s[j] != c
    ensures Find(s, c, i) == k
    decreases k - i
  {
    if i < k { FindAt(s, c, i + 1, k); }
  }

  lemma {:induction false} FindSome(s: Text, c: char, i: nat, k: nat)
    requires i <= k < |s| && s[k] == c
    ensures Find(s, c, i) <= k
    decreases k - i
  {
    if i < k { FindSome(s, c, i + 1, k); }
  }

  // ----- frame prefixes

  /** The end of the digits at the start. */
  function DigitRun(s: Text, i: nat): (k: nat)
    requires i <= |s|
    ensures i <= k <= |s|
    ensures forall j :: i <= j < k ==> IsDigit(s[j])
    ensures k < |s| ==> !IsDigit(s[k])
    decreases |s| - i
  {
    if i < |s| && IsDigit(s[i]) then DigitRun(s, i + 1) else i
  }

  /** `split_cycle_name`: the frame number and the field name, for digits, a dot and more. */
  function SplitCycle(name: Text): (Maybe<nat>, Text) {
    var d := DigitRun(name, 0);
    if 0 < d && d + 1 < |name| && name[d] == '.' then (Given(Value(name[..d], d)), name[d + 1..]) else (Absent, name)
  }

  lemma {:induction false} DigitRunAt(s: Text, i: nat, k: nat)
    requires i <= k < |s| && !IsDigit(s[k]) && forall j :: i <= j < k ==> IsDigit(s[j])
    ensures DigitRun(s, i) == k
    decreases k - i
  {
    if i < k { DigitRunAt(s, i + 1, k); }
  }

  lemma {:induction false} SplitPrefixed(k: nat, name: Text)
    requires name != []
    ensures SplitCycle(Decimal(k) + ['.'] + name) == (Given(k), name)
  {
    var s := Decimal(k) + ['.'] + name;
    var d := |Decimal(k)|;
    assert forall j :: 0 <= j < d ==> s[j] == Decimal(k)[j];
    DigitRunAt(s, 0, d);
    assert s[..d] == Decimal(k) && s[d + 1..] == name;
    ValueOfDecimal(k);
  }

  lemma {:induction false} SplitPlain(name: Text)
    requires Lacks(name, '.')
    ensures SplitCycle(name) == (Absent, name)
  {}
}
