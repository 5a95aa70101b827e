/** The texts of the tokens of compiler/parser/st.py, kind by kind, and that the scanner finds the longest. */
module Lexemes {
  import opened Lexer

  // ----- number texts

  predicate AllIn(s: Source, cl: Class) {
    forall k :: 0 <= k < |s| ==> In(cl, s[k])
  }

  /** Characters of the class in groups that single underscores join. */
  predicate Grouped(s: Source, cl: Class) {
    && s != [] && In(cl, s[0]) && In(cl, s[|s| - 1])
    && (forall k :: 0 <= k < |s| ==> In(cl, s[k]) || s[k] == '_')
    && forall k :: 0 < k < |s| ==> In(cl, s[k - 1]) || In(cl, s[k])
  }

  predicate Digits(cl: Class) {
    cl == Decimal || cl == Octal || cl == Binary || cl == Hexadecimal
  }

  predicate Prefixed(s: Source, prefix: Source, cl: Class) {
    |s| > |prefix| && s[..|prefix|] == prefix && Grouped(s[|prefix|..], cl)
  }

  predicate ExponentText(s: Source) {
    && |s| >= 2 && (s[0] == 'e' || s[0] == 'E')
    && (AllIn(s[1..], Decimal) || (|s| >= 3 && (s[1] == '+' || s[1] == '-') && AllIn(s[2..], Decimal)))
  }

  predicate DecimalSplit(s: Source, k: nat) {
    k <= |s| && Grouped(s[..k], Decimal) && (k == |s| || ExponentText(s[k..]))
  }

  /** Decimal digits with an optional exponent, or digits behind 16#, 8# or 2#. */
  ghost predicate NumberText(s: Source) {
    || Prefixed(s, "16#", Hexadecimal) || Prefixed(s, "8#", Octal) || Prefixed(s, "2#", Binary)
    || exists k: nat :: DecimalSplit(s, k)
  }

  // ----- groups are the longest

  /** From i to e stand groups of the class. */
  predicate GroupedAt(src: Source, i: nat, e: nat, cl: Class) {
    i < e <= |src| && Grouped(src[i..e], cl)
  }

  lemma {:induction false} RunGrouped(src: Source, i: nat, cl: Class)
    requires i <= |src| && Run(src, i, cl) > i
    ensures GroupedAt(src, i, Run(src, i, cl), cl)
  {
    var s := src[i..Run(src, i, cl)];
    assert forall k :: 0 <= k < |s| ==> s[k] == src[i + k] && In(cl, s[k]);
  }

  lemma {:induction false} GroupsJoin(src: Source, i: nat, m: nat, e: nat, cl: Class)
    requires GroupedAt(src, i, m, cl) && m < |src| && src[m] == '_' && GroupedAt(src, m + 1, e, cl)
    ensures GroupedAt(src, i, e, cl)
  {
    var a, b, s := src[i..m], src[m + 1..e], src[i..e];
    assert s == a + ['_'] + b;
  }

  lemma {:induction false} GroupsJoined(src: Source, i: nat, cl: Class, e: nat)
    requires i <= |src| && i < e == Run(src, i, cl) && GroupedAt(src, i, e, cl) && Has(src, e, '_')
    requires Groups(src, e + 1, cl) > e + 1 ==> GroupedAt(src, e + 1, Groups(src, e + 1, cl), cl)
    ensures GroupedAt(src, i, Groups(src, i, cl), cl)
  {
    var g := Groups(src, e + 1, cl);
    if g > e + 1 { GroupsJoin(src, i, e, g, cl); }
  }

  lemma {:induction false} GroupsAre(src: Source, i: nat, cl: Class)
    requires i <= |src|
    ensures Groups(src, i, cl) > i ==> GroupedAt(src, i, Groups(src, i, cl), cl)
    decreases |src| - i
  {
    var e := Run(src, i, cl);
    if e > i {
      RunGrouped(src, i, cl);
      if Has(src, e, '_') {
        GroupsAre(src, e + 1, cl);
        GroupsJoined(src, i, cl, e);
      }
    }
  }

  /** Groups that go on behind a run go on with an underscore and further groups. */
  lemma {:induction false} GroupsGoOn(src: Source, i: nat, e: nat, f: nat, cl: Class)
    requires Digits(cl) && GroupedAt(src, i, f, cl) && i < e < f && !In(cl, src[e])
    ensures src[e] == '_' && e + 1 < f && GroupedAt(src, e + 1, f, cl)
  {
    var s, k := src[i..f], e - i;
    assert forall j :: 0 <= j < |s| ==> s[j] == src[i + j];
    assert s[k] == src[e] && !In(cl, s[k]);
    assert k < |s| - 1 && In(cl, s[k + 1]) by {
      assert In(cl, s[|s| - 1]);
      assert In(cl, s[k + 1 - 1]) || In(cl, s[k + 1]);
    }
    TailGrouped(s, k + 1, cl);
    assert s[k + 1..] == src[e + 1..f];
  }

  lemma {:induction false} TailGrouped(s: Source, k: nat, cl: Class)
    requires Grouped(s, cl) && k < |s| && In(cl, s[k])
    ensures Grouped(s[k..], cl)
  {
    var t := s[k..];
    assert forall j :: 0 <= j < |t| ==> t[j] == s[k + j];
  }

  lemma {:induction false} RunStarts(src: Source, i: nat, f: nat, cl: Class)
    requires GroupedAt(src, i, f, cl)
    ensures Run(src, i, cl) > i
  {
    assert src[i..f][0] == src[i];
  }

  /** No longer stretch is grouped. */
  lemma {:induction false} GroupsLongest(src: Source, i: nat, cl: Class, f: nat)
    requires Digits(cl) && GroupedAt(src, i, f, cl)
    ensures f <= Groups(src, i, cl)
    decreases |src| - i
  {
    var e := Run(src, i, cl);
    RunStarts(src, i, f, cl);
    if f > e {
      GroupsGoOn(src, i, e, f, cl);
      GroupsLongest(src, e + 1, cl, f);
      GroupsReach(src, i, cl, f);
    }
  }

  lemma {:induction false} GroupsReach(src: Source, i: nat, cl: Class, f: nat)
    requires i <= |src| && i < Run(src, i, cl) && Has(src, Run(src, i, cl), '_')
    requires Run(src, i, cl) + 1 < f <= Groups(src, Run(src, i, cl) + 1, cl)
    ensures f <= Groups(src, i, cl)
  {
  }

  // ----- numbers are the longest

  lemma {:induction false} ExponentIs(src: Source, i: nat)
    requires i <= |src| && Exponent(src, i) > i
    ensures ExponentText(src[i..Exponent(src, i)])
  {
    var e := Exponent(src, i);
    var s := src[i..e];
    assert forall k :: 0 <= k < |s| ==> s[k] == src[i + k];
    if Has(src, i + 1, '+') || Has(src, i + 1, '-') {
      assert forall k :: 0 <= k < |s[2..]| ==> s[2..][k] == src[i + 2 + k];
    } else {
      assert forall k :: 0 <= k < |s[1..]| ==> s[1..][k] == src[i + 1 + k];
    }
  }

  lemma {:induction false} RunLongest(src: Source, i: nat, cl: Class, f: nat)
    requires i <= f <= |src| && forall k :: i <= k < f ==> In(cl, src[k])
    ensures f <= Run(src, i, cl)
  {
  }

  lemma {:induction false} ExponentLongest(src: Source, i: nat, f: nat)
    requires i <= f <= |src| && ExponentText(src[i..f])
    ensures f <= Exponent(src, i)
  {
    var s := src[i..f];
    assert forall k :: 0 <= k < |s| ==> s[k] == src[i + k];
    if AllIn(s[1..], Decimal) {
      assert s[1..][0] == s[1];
      forall k | i + 1 <= k < f ensures In(Decimal, src[k]) { assert s[1..][k - i - 1] == src[k]; }
      RunLongest(src, i + 1, Decimal, f);
    } else {
      forall k | i + 2 <= k < f ensures In(Decimal, src[k]) { assert s[2..][k - i - 2] == src[k]; }
      RunLongest(src, i + 2, Decimal, f);
    }
  }

  function DecimalEnd(src: Source, i: nat): nat
    requires i <= |src|
  {
    Exponent(src, Groups(src, i, Decimal))
  }

  lemma {:induction false} DecimalIs(src: Source, i: nat)
    requires i < |src| && In(Decimal, src[i])
    ensures i < DecimalEnd(src, i) <= |src| && NumberText(src[i..DecimalEnd(src, i)])
  {
    var g, e := Groups(src, i, Decimal), DecimalEnd(src, i);
    GroupsAre(src, i, Decimal);
    var s, k := src[i..e], g - i;
    assert s[..k] == src[i..g] && s[k..] == src[g..e];
    if e > g { ExponentIs(src, g); }
    assert DecimalSplit(s, k);
  }

  lemma {:induction false} InGroups(src: Source, i: nat, g: nat, m: nat)
    requires g <= |src| && i <= m && (i < g ==> GroupedAt(src, i, g, Decimal))
    ensures m < g ==> In(Decimal, src[m]) || src[m] == '_'
  {
    if m < g {
      assert src[i..g][m - i] == src[m];
    }
  }

  /** An exponent starts where the groups end. */
  lemma {:induction false} ExponentBehind(src: Source, i: nat, m: nat, f: nat)
    requires GroupedAt(src, i, m, Decimal) && m < f <= |src| && ExponentText(src[m..f])
    ensures m == Groups(src, i, Decimal)
  {
    GroupsLongest(src, i, Decimal, m);
    GroupsAre(src, i, Decimal);
    InGroups(src, i, Groups(src, i, Decimal), m);
    assert src[m..f][0] == src[m];
  }

  lemma {:induction false} DecimalLongest(src: Source, i: nat, f: nat, k: nat)
    requires i < f <= |src| && DecimalSplit(src[i..f], k)
    ensures f <= DecimalEnd(src, i)
  {
    var s, m := src[i..f], i + k;
    assert s[..k] == src[i..m] && s[k..] == src[m..f];
    if k < |s| {
      ExponentBehind(src, i, m, f);
      ExponentLongest(src, m, f);
    } else {
      GroupsLongest(src, i, Decimal, m);
    }
  }

  function BasedEnd(src: Source, i: nat, prefix: Source, cl: Class): nat
    requires i <= |src|
  {
    if Starts(src, i, prefix) then Based(src, i, i + |prefix|, cl) else i
  }

  lemma {:induction false} BasedIs(src: Source, i: nat, prefix: Source, cl: Class)
    requires i <= |src| && BasedEnd(src, i, prefix, cl) > i
    ensures BasedEnd(src, i, prefix, cl) <= |src| && Prefixed(src[i..BasedEnd(src, i, prefix, cl)], prefix, cl)
  {
    var e, m := BasedEnd(src, i, prefix, cl), i + |prefix|;
    GroupsAre(src, m, cl);
    assert src[i..e][..|prefix|] == src[i..m] && src[i..e][|prefix|..] == src[m..e];
  }

  lemma {:induction false} BasedLongest(src: Source, i: nat, prefix: Source, cl: Class, f: nat)
    requires Digits(cl) && i <= f <= |src| && Prefixed(src[i..f], prefix, cl)
    ensures f <= BasedEnd(src, i, prefix, cl)
  {
    var m := i + |prefix|;
    assert src[i..f][..|prefix|] == src[i..m] && src[i..f][|prefix|..] == src[m..f];
    GroupsLongest(src, m, cl, f);
  }

  lemma {:induction false} TwoPrefix(src: Source, i: nat, word: Source)
    requires i < |src| && |word| == 2
    ensures Starts(src, i, word) <==> Has(src, i, word[0]) && Has(src, i + 1, word[1])
  {
    StartsAt(src, i, word);
  }

  lemma {:induction false} ThreePrefix(src: Source, i: nat, word: Source)
    requires i < |src| && |word| == 3
    ensures Starts(src, i, word) <==> Has(src, i, word[0]) && Has(src, i + 1, word[1]) && Has(src, i + 2, word[2])
  {
    StartsAt(src, i, word);
  }

  lemma {:induction false} Prefixes(src: Source, i: nat)
    requires i < |src|
    ensures Starts(src, i, "16#") <==> Has(src, i, '1') && Has(src, i + 1, '6') && Has(src, i + 2, '#')
    ensures Starts(src, i, "8#") <==> Has(src, i, '8') && Has(src, i + 1, '#')
    ensures Starts(src, i, "2#") <==> Has(src, i, '2') && Has(src, i + 1, '#')
  {
    ThreePrefix(src, i, "16#");
    TwoPrefix(src, i, "8#");
    TwoPrefix(src, i, "2#");
  }

  lemma {:induction false} StartsAt(src: Source, i: nat, word: Source)
    ensures Starts(src, i, word) <==> i + |word| <= |src| && forall k :: 0 <= k < |word| ==> src[i + k] == word[k]
  {
    if i + |word| <= |src| && forall k :: 0 <= k < |word| ==> src[i + k] == word[k] {
      assert src[i..i + |word|] == word;
    }
  }

  /** A number token is the longest number text at its start. */
  lemma {:induction false} NumberLongest(src: Source, i: nat)
    requires i < |src| && In(Decimal, src[i])
    ensures ScanNumber(src, i).0 == Number && NumberText(src[i..ScanNumber(src, i).1])
    ensures forall f :: i < f <= |src| && NumberText(src[i..f]) ==> f <= ScanNumber(src, i).1
  {
    Prefixes(src, i);
    var hex, octal, binary := BasedEnd(src, i, "16#", Hexadecimal), BasedEnd(src, i, "8#", Octal), BasedEnd(src, i, "2#", Binary);
    var e := ScanNumber(src, i).1;
    assert e == Max(Max(hex, octal), Max(binary, DecimalEnd(src, i)));
    DecimalIs(src, i);
    if hex > i { BasedIs(src, i, "16#", Hexadecimal); }
    if octal > i { BasedIs(src, i, "8#", Octal); }
    if binary > i { BasedIs(src, i, "2#", Binary); }
    forall f | i < f <= |src| && NumberText(src[i..f]) ensures f <= e {
      NumberBound(src, i, f);
    }
  }

  lemma {:induction false} NumberBound(src: Source, i: nat, f: nat)
    requires i < f <= |src| && NumberText(src[i..f])
    ensures f <= BasedEnd(src, i, "16#", Hexadecimal) || f <= BasedEnd(src, i, "8#", Octal) || f <= BasedEnd(src, i, "2#", Binary)
         || f <= DecimalEnd(src, i)
  {
    if Prefixed(src[i..f], "16#", Hexadecimal) {
      BasedLongest(src, i, "16#", Hexadecimal, f);
    } else if Prefixed(src[i..f], "8#", Octal) {
      BasedLongest(src, i, "8#", Octal, f);
    } else if Prefixed(src[i..f], "2#", Binary) {
      BasedLongest(src, i, "2#", Binary, f);
    } else {
      var k: nat :| DecimalSplit(src[i..f], k);
      DecimalLongest(src, i, f, k);
    }
  }

  // ----- strings

  /** From i to j stand characters other than the quote, where `$` takes the next one with it, which is no line feed. */
  predicate Items(src: Source, i: nat, j: nat, quote: char)
    requires j <= |src|
    decreases j - i
  {
    i == j
    || (i < j && if src[i] == '$' then i + 1 < j && src[i + 1] != '\n' && Items(src, i + 2, j, quote)
                 else src[i] != quote && Items(src, i + 1, j, quote))
  }

  lemma {:induction false} StringIs(src: Source, i: nat, quote: char)
    requires i <= |src| && quote != '$' && StringEnd(src, i, quote) > 0
    ensures var e := StringEnd(src, i, quote); Items(src, i, e - 1, quote) && src[e - 1] == quote
    decreases |src| - i
  {
    if src[i] != quote {
      StringIs(src, if src[i] == '$' then i + 2 else i + 1, quote);
    }
  }

  lemma {:induction false} StringOnly(src: Source, i: nat, j: nat, quote: char)
    requires j < |src| && quote != '$' && Items(src, i, j, quote) && src[j] == quote
    ensures StringEnd(src, i, quote) == j + 1
    decreases j - i
  {
    if i < j {
      StringOnly(src, if src[i] == '$' then i + 2 else i + 1, j, quote);
    }
  }

  // ----- symbols

  const SYMBOLS: seq<Source> := ["...", ":=", "=>", "..", "**", "<>", "<=", ">=", ":", ";", "(", ")", "[", "]",
                                 ",", ".", "+", "-", "*", "/", "=", "<", ">", "&", "^"]

  ghost predicate SymbolAt(src: Source, i: nat, e: nat) {
    i < e <= |src| && src[i..e] in SYMBOLS
  }

  lemma {:induction false} OneCharacter(src: Source, i: nat)
    requires i < |src|
    ensures SymbolAt(src, i, i + 1) <==> OneOf(src[i], ":;()[],.+-*/=<>&^")
  {
    var s, word := src[i..i + 1], ":;()[],.+-*/=<>&^";
    assert |s| == 1 && s[0] == src[i];
    if OneOf(src[i], word) {
      var k :| 0 <= k < |word| && word[k] == src[i];
      assert s == [word[k]];
      TableOfOne(k);
    }
    if s in SYMBOLS {
      var k :| 0 <= k < |SYMBOLS| && SYMBOLS[k] == s;
      assert k >= 8;
      WordOfOne(k);
    }
  }

  lemma {:induction false} TableOfOne(k: nat)
    requires k < |":;()[],.+-*/=<>&^"|
    ensures [":;()[],.+-*/=<>&^"[k]] == SYMBOLS[8 + k]
  {
  }

  lemma {:induction false} WordOfOne(k: nat)
    requires 8 <= k < |SYMBOLS|
    ensures |SYMBOLS[k]| == 1 && OneOf(SYMBOLS[k][0], ":;()[],.+-*/=<>&^")
  {
    TableOfOne(k - 8);
    assert ":;()[],.+-*/=<>&^"[k - 8] == SYMBOLS[k][0];
  }

  predicate Pair(a: char, b: char) {
    || (b == '=' && (a == ':' || a == '<' || a == '>')) || (b == '>' && (a == '=' || a == '<'))
    || (a == '.' && b == '.') || (a == '*' && b == '*')
  }

  lemma {:induction false} TwoCharacters(src: Source, i: nat)
    requires i + 2 <= |src|
    ensures SymbolAt(src, i, i + 2) <==> Pair(src[i], src[i + 1])
  {
    var s := src[i..i + 2];
    assert |s| == 2 && s[0] == src[i] && s[1] == src[i + 1];
    if Pair(s[0], s[1]) {
      PairListed(s);
    }
    if s in SYMBOLS {
      var k :| 0 <= k < |SYMBOLS| && SYMBOLS[k] == s;
      ListedPair(k);
    }
  }

  lemma {:induction false} PairListed(s: Source)
    requires |s| == 2 && Pair(s[0], s[1])
    ensures s in SYMBOLS
  {
    var k := if s[0] == ':' then 1 else if s[0] == '=' then 2 else if s[0] == '.' then 3 else if s[0] == '*' then 4
             else if s[0] == '>' then 7 else if s[1] == '>' then 5 else 6;
    assert SYMBOLS[k] == s;
  }

  lemma {:induction false} ListedPair(k: nat)
    requires k < |SYMBOLS| && |SYMBOLS[k]| == 2
    ensures Pair(SYMBOLS[k][0], SYMBOLS[k][1])
  {
    WordLength(k);
  }

  lemma {:induction false} WordLength(k: nat)
    requires k < |SYMBOLS|
    ensures |SYMBOLS[k]| == if k == 0 then 3 else if k < 8 then 2 else 1
  {
    if k >= 8 { WordOfOne(k); }
  }

  lemma {:induction false} MoreCharacters(src: Source, i: nat, f: nat)
    requires i + 2 < f
    ensures SymbolAt(src, i, f) <==> f == i + 3 && Has(src, i, '.') && Has(src, i + 1, '.') && Has(src, i + 2, '.')
  {
    if SymbolAt(src, i, f) {
      var k :| 0 <= k < |SYMBOLS| && SYMBOLS[k] == src[i..f];
      WordLength(k);
      assert k == 0 && src[i..f][0] == src[i] && src[i..f][1] == src[i + 1] && src[i..f][2] == src[i + 2];
    }
    if f == i + 3 && Has(src, i, '.') && Has(src, i + 1, '.') && Has(src, i + 2, '.') {
      assert src[i..f] == SYMBOLS[0];
    }
  }

  lemma {:induction false} SymbolListed(src: Source, i: nat)
    requires i < |src|
    ensures var (kind, e) := ScanSymbol(src, i);
            (kind == Symbol || (kind == Error && e == i + 1)) && (kind == Symbol <==> SymbolAt(src, i, e))
  {
    OneCharacter(src, i);
    var e := ScanSymbol(src, i).1;
    if e == i + 2 { TwoCharacters(src, i); }
    if e == i + 3 { MoreCharacters(src, i, e); }
  }

  lemma {:induction false} SymbolBound(src: Source, i: nat, f: nat)
    requires i < |src| && SymbolAt(src, i, f)
    ensures f <= ScanSymbol(src, i).1 && ScanSymbol(src, i).0 == Symbol
  {
    if f == i + 1 {
      OneCharacter(src, i);
    } else if f == i + 2 {
      TwoCharacters(src, i);
    } else {
      MoreCharacters(src, i, f);
    }
  }

  /** A symbol token is the longest symbol of the table at its start; where none starts there is an error of one
      character. */
  lemma {:induction false} SymbolLongest(src: Source, i: nat)
    requires i < |src|
    ensures SymbolFound(src, i, ScanSymbol(src, i).0, ScanSymbol(src, i).1)
  {
    SymbolListed(src, i);
    forall f: nat | SymbolAt(src, i, f) ensures ScanSymbol(src, i).0 == Symbol && f <= ScanSymbol(src, i).1 {
      SymbolBound(src, i, f);
    }
  }

  // ----- direct access

  predicate AreaLetter(c: char) {
    var u := Upper(c);
    u == 'I' || u == 'Q' || u == 'M' || u == 'G'
  }

  predicate DirectText(s: Source) {
    || (|s| == 3 && s[0] == '%' && AreaLetter(s[1]) && (SizeLetter(s[2]) || s[2] == '*'))
    || (|s| == 2 && s[0] == '%' && SizeLetter(s[1]))
  }

  lemma {:induction false} DirectLongest(src: Source, i: nat)
    requires i < |src| && src[i] == '%'
    ensures var (kind, e) := ScanDirect(src, i);
            && (kind == DirectAccess || (kind == Error && e == i + 1))
            && (kind == DirectAccess ==> DirectText(src[i..e]))
            && forall f :: i < f <= |src| && DirectText(src[i..f]) ==> kind == DirectAccess && f <= e
  {
    var (kind, e) := ScanDirect(src, i);
    assert forall k :: 0 <= k < |src[i..e]| ==> src[i..e][k] == src[i + k];
    forall f | i < f <= |src| && DirectText(src[i..f]) ensures kind == DirectAccess && f <= e {
      assert forall k :: 0 <= k < |src[i..f]| ==> src[i..f][k] == src[i + k];
    }
  }

  // ----- properties and pragmas

  const PROPERTIES: seq<Source> := ["{external}", "{ref}", "{constant}", "{sized}", "@EXTERNAL", "@CONSTANT"]

  lemma {:induction false} PropertyIs(src: Source, i: nat)
    requires i < |src|
    ensures var e := PropertyEnd(src, i);
            && (e > 0 ==> exists k :: 0 <= k < |PROPERTIES| && Starts(src, i, PROPERTIES[k]) && e == i + |PROPERTIES[k]|)
            && (e == 0 ==> forall k :: 0 <= k < |PROPERTIES| ==> !Starts(src, i, PROPERTIES[k]))
  {
    var e := PropertyEnd(src, i);
    var k := if Starts(src, i, "{external}") then 0 else if Starts(src, i, "{ref}") then 1 else if Starts(src, i, "{constant}") then 2
             else if Starts(src, i, "{sized}") then 3 else if Starts(src, i, "@EXTERNAL") then 4 else 5;
    assert e > 0 ==> Starts(src, i, PROPERTIES[k]) && e == i + |PROPERTIES[k]|;
  }

  // ----- every token

  /** What the scanner has found from i to e. */
  ghost predicate Found(t: Tables, src: Source, i: nat, kind: Kind, e: nat)
    requires i < |src|
  {
    var c := src[i];
    if In(Blanks, c) then kind == Whitespace && LongestRun(src, i, Blanks, e)
    else if Starts(src, i, "(*") || Starts(src, i, "/*") then BlockFound(src, i, kind, e)
    else if Starts(src, i, "//") then kind == Comment && LongestRun(src, i, NotNewline, e)
    else if c == '{' || c == '@' then BraceFound(src, i, kind, e)
    else if c == '\'' || c == '"' then StringFound(src, i, kind, e)
    else if c == '%' then DirectFound(src, i, kind, e)
    else if Letter(c) then WordFound(t, src, i, kind, e)
    else if In(Decimal, c) then kind == Number && NumberFound(src, i, e)
    else SymbolFound(src, i, kind, e)
  }

  predicate LongestRun(src: Source, i: nat, cl: Class, e: nat) {
    i < e <= |src| && (forall k :: i <= k < e ==> In(cl, src[k])) && (e < |src| ==> !In(cl, src[e]))
  }

  /** The comment ends where no nested one is open for the first time, or is an error of two characters. */
  ghost predicate BlockFound(src: Source, i: nat, kind: Kind, e: nat)
    requires i + 2 <= |src|
  {
    || (&& kind == Comment && i + 2 <= e <= |src| && NestingAt(src, i, e).unclosed == 0
        && forall k :: i + 2 <= k < e ==> NestingAt(src, i, k).unclosed > 0)
    || (kind == Error && e == i + 2 && forall k :: i + 2 <= k <= |src| ==> NestingAt(src, i, k).unclosed > 0)
  }

  /** A property, or else a pragma up to the first closing brace, or else an error of one character. */
  ghost predicate BraceFound(src: Source, i: nat, kind: Kind, e: nat)
    requires i < |src|
  {
    if exists k :: 0 <= k < |PROPERTIES| && Starts(src, i, PROPERTIES[k])
    then kind == Property && exists k :: 0 <= k < |PROPERTIES| && Starts(src, i, PROPERTIES[k]) && e == i + |PROPERTIES[k]|
    else
      || (kind == Pragma && src[i] == '{' && i + 1 < e <= |src| && src[e - 1] == '}' && forall k :: i < k < e - 1 ==> src[k] != '}')
      || (kind == Error && e == i + 1 && (src[i] == '{' ==> forall k :: i < k < |src| ==> src[k] != '}'))
  }

  ghost predicate StringFound(src: Source, i: nat, kind: Kind, e: nat)
    requires i < |src|
  {
    || (&& kind == (if src[i] == '\'' then StringText else WideString)
        && i + 1 < e <= |src| && Items(src, i + 1, e - 1, src[i]) && src[e - 1] == src[i])
    || (kind == Error && e == i + 1 && forall j: nat :: i < j < |src| && src[j] == src[i] ==> !Items(src, i + 1, j, src[i]))
  }

  ghost predicate DirectFound(src: Source, i: nat, kind: Kind, e: nat)
    requires i < |src|
  {
    && (kind == DirectAccess || (kind == Error && e == i + 1))
    && (kind == DirectAccess ==> i < e <= |src| && DirectText(src[i..e]))
    && forall f :: i < f <= |src| && DirectText(src[i..f]) ==> kind == DirectAccess && f <= e
  }

  ghost predicate NumberFound(src: Source, i: nat, e: nat)
    requires i < |src|
  {
    i < e <= |src| && NumberText(src[i..e]) && forall f :: i < f <= |src| && NumberText(src[i..f]) ==> f <= e
  }

  ghost predicate SymbolFound(src: Source, i: nat, kind: Kind, e: nat)
    requires i < |src|
  {
    && (kind == Symbol || (kind == Error && e == i + 1))
    && (kind == Symbol ==> SymbolAt(src, i, e))
    && forall f: nat :: SymbolAt(src, i, f) ==> kind == Symbol && f <= e
  }

  /** The longest word, but `REF=` is a symbol and `REFERENCE TO` a keyword; a # behind it makes a typed literal, if
      one is longer, or a cast prefix. */
  ghost predicate WordFound(t: Tables, src: Source, i: nat, kind: Kind, e: nat)
    requires i < |src|
  {
    exists base, b: nat :: BaseWord(t, src, i, base, b)
                   && if !Has(src, b, '#') then kind == base && e == b
                      else if t.typedLiteral(src, i) > b + 1 then kind == TypedLiteral && e == t.typedLiteral(src, i)
                      else kind == CastPrefix && e == b + 1
  }

  predicate BaseWord(t: Tables, src: Source, i: nat, kind: Kind, e: nat)
    requires i < |src|
  {
    if StartsUpper(src, i, "REF=") then kind == Symbol && e == i + 4
    else if StartsUpper(src, i, "REFERENCE TO") then kind == Keyword && e == i + 12
    else LongestRun(src, i, WordChars, e) && kind == if t.keyword(src[i..e]) then Keyword else Identifier
  }

  lemma {:induction false} WordIs(t: Tables, src: Source, i: nat)
    requires i < |src| && Letter(src[i])
    ensures WordFound(t, src, i, ScanWord(t, src, i).0, ScanWord(t, src, i).1)
  {
    var word := Run(src, i + 1, WordChars);
    if StartsUpper(src, i, "REF=") {
      assert Upper(src[i + 3]) == "REF="[3] == '=';
      assert word <= i + 3;
      assert !StartsUpper(src, i, "REFERENCE TO") by {
        assert "REFERENCE TO"[3] == 'E';
      }
      assert BaseWord(t, src, i, Symbol, i + 4);
    } else if StartsUpper(src, i, "REFERENCE TO") {
      assert Upper(src[i + 9]) == "REFERENCE TO"[9] == ' ';
      assert word <= i + 9;
      assert BaseWord(t, src, i, Keyword, i + 12);
    } else {
      assert LongestRun(src, i, WordChars, word);
      assert BaseWord(t, src, i, if t.keyword(src[i..word]) then Keyword else Identifier, word);
    }
  }

  lemma {:induction false} StringScanned(src: Source, i: nat)
    requires i < |src| && (src[i] == '\'' || src[i] == '"')
    ensures StringFound(src, i, ScanString(src, i).0, ScanString(src, i).1)
  {
    if StringEnd(src, i + 1, src[i]) > 0 {
      StringIs(src, i + 1, src[i]);
    } else {
      forall j: nat | i < j < |src| && src[j] == src[i] ensures !Items(src, i + 1, j, src[i]) {
        if Items(src, i + 1, j, src[i]) { StringOnly(src, i + 1, j, src[i]); }
      }
    }
  }

  lemma {:induction false} BraceScanned(src: Source, i: nat)
    requires i < |src| && (src[i] == '{' || src[i] == '@')
    ensures BraceFound(src, i, ScanBrace(src, i).0, ScanBrace(src, i).1)
  {
    PropertyIs(src, i);
    if PropertyEnd(src, i) == 0 && src[i] == '{' {
      var e := Run(src, i + 1, NotBrace);
      assert forall k :: i < k < e ==> In(NotBrace, src[k]);
    }
  }

  lemma {:induction false} TwoStarts(src: Source, i: nat)
    requires i < |src|
    ensures Starts(src, i, "(*") <==> src[i] == '(' && Has(src, i + 1, '*')
    ensures Starts(src, i, "/*") <==> src[i] == '/' && Has(src, i + 1, '*')
    ensures Starts(src, i, "//") <==> src[i] == '/' && Has(src, i + 1, '/')
  {
    TwoPrefix(src, i, "(*");
    TwoPrefix(src, i, "/*");
    TwoPrefix(src, i, "//");
  }

  /** The scanner finds the token that stands there. */
  lemma {:induction false} ScanFinds(t: Tables, src: Source, i: nat)
    requires i < |src|
    ensures Found(t, src, i, Scan(t, src, i).0, Scan(t, src, i).1)
  {
    var c := src[i];
    TwoStarts(src, i);
    if In(Blanks, c) || Starts(src, i, "(*") || Starts(src, i, "/*") || Starts(src, i, "//") {
    } else if c == '{' || c == '@' {
      BraceScanned(src, i);
    } else if c == '\'' || c == '"' {
      StringScanned(src, i);
    } else if c == '%' {
      DirectLongest(src, i);
    } else if Letter(c) {
      WordIs(t, src, i);
    } else if In(Decimal, c) {
      NumberLongest(src, i);
    } else {
      SymbolLongest(src, i);
    }
  }
}
