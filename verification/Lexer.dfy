/** The lossless tokenizer of compiler/parser/st.py. */
module Lexer {

  type Source = seq<char>

  datatype Kind =
    | Whitespace | Comment | Pragma | Property | Keyword | Identifier | CastPrefix | TypedLiteral
    | Number | StringText | WideString | DirectAccess | Symbol | Error

  datatype Token = Token(kind: Kind, text: Source, start: nat, end: nat, line: nat, column: nat)

  /** The keyword set, and the end of the longest typed literal (date, time of day, duration) that
      matches at an offset, or 0: both are left open, except that a match ends inside the source. */
  datatype Tables = Tables(keyword: Source -> bool, typedLiteral: (Source, nat) -> nat)

  ghost predicate Bounded(t: Tables, src: Source) {
    forall i :: t.typedLiteral(src, i) <= |src|
  }

  // ----- character runs

  datatype Class = Blanks | WordChars | Decimal | Octal | Binary | Hexadecimal | NotNewline | NotBrace

  predicate Letter(c: char) {
    'a' <= c <= 'z' || 'A' <= c <= 'Z' || c == '_'
  }

  predicate In(cl: Class, c: char) {
    match cl
    case Blanks => c == ' ' || c == '\t' || c == '\n' || c == '\U{C}' || c == '\r'
    case WordChars => Letter(c) || '0' <= c <= '9'
    case Decimal => '0' <= c <= '9'
    case Octal => '0' <= c <= '7'
    case Binary => '0' <= c <= '1'
    case Hexadecimal => '0' <= c <= '9' || 'a' <= c <= 'f' || 'A' <= c <= 'F'
    case NotNewline => c != '\n'
    case NotBrace => c != '}'
  }

  /** The end of the longest run of the class from i on. */
  function Run(src: Source, i: nat, cl: Class): (e: nat)
    requires i <= |src|
    ensures i <= e <= |src|
    ensures forall k :: i <= k < e ==> In(cl, src[k])
    ensures e < |src| ==> !In(cl, src[e])
    decreases |src| - i
  {
    if i < |src| && In(cl, src[i]) then Run(src, i + 1, cl) else i
  }

  predicate Has(src: Source, i: nat, c: char) {
    i < |src| && src[i] == c
  }

  predicate Starts(src: Source, i: nat, word: Source) {
    i + |word| <= |src| && src[i..i + |word|] == word
  }

  function Upper(c: char): char {
    if 'a' <= c <= 'z' then c - 'a' + 'A' else c
  }

  predicate StartsUpper(src: Source, i: nat, word: Source) {
    i + |word| <= |src| && forall k :: 0 <= k < |word| ==> Upper(src[i + k]) == word[k]
  }

  // ----- block comments

  function Closer(opener: char): char {
    if opener == '(' then ')' else '/'
  }

  /** Open comments and the remembered character, once the characters before n have been read. */
  datatype Nesting = Nesting(unclosed: nat, prev: char)

  function Advance(s: Nesting, opener: char, c: char): Nesting {
    if c == '*' && s.prev == opener then Nesting(s.unclosed + 1, ' ')
    else if c == Closer(opener) && s.prev == '*' then Nesting(if s.unclosed == 0 then 0 else s.unclosed - 1, c)
    else Nesting(s.unclosed, c)
  }

  function NestingAt(src: Source, start: nat, n: nat): Nesting
    requires start + 2 <= n <= |src|
    decreases n
  {
    if n == start + 2 then Nesting(1, ' ') else Advance(NestingAt(src, start, n - 1), src[start], src[n - 1])
  }

  /** The least end from n on at which no comment is open, or 0. */
  function CommentEnd(src: Source, start: nat, n: nat): (e: nat)
    requires start + 2 <= n <= |src|
    ensures e == 0 || (n <= e <= |src| && NestingAt(src, start, e).unclosed == 0)
    ensures forall k :: n <= k <= |src| && (e == 0 || k < e) ==> NestingAt(src, start, k).unclosed > 0
    decreases |src| - n
  {
    if NestingAt(src, start, n).unclosed == 0 then n
    else if n == |src| then 0
    else CommentEnd(src, start, n + 1)
  }

  method BlockCommentEnd(src: Source, start: nat) returns (e: nat)
    requires start + 2 <= |src|
    ensures e == CommentEnd(src, start, start + 2)
  {
    var opener := src[start];
    var close := Closer(opener);
    var unclosed, prev, i := 1, ' ', start + 2;
    while i < |src|
      invariant start + 2 <= i <= |src| && unclosed > 0
      invariant NestingAt(src, start, i) == Nesting(unclosed, prev)
      invariant CommentEnd(src, start, i) == CommentEnd(src, start, start + 2)
    {
      var c := src[i];
      if c == '*' && prev == opener {
        unclosed, prev := unclosed + 1, ' ';
      } else if c == close && prev == '*' {
        unclosed, prev := unclosed - 1, c;
      } else {
        prev := c;
      }
      i := i + 1;
      if unclosed == 0 {
        return i;
      }
    }
    return 0;
  }

  lemma {:induction false} StarIsRead(src: Source, start: nat, n: nat)
    requires start + 2 <= n <= |src| && NestingAt(src, start, n).prev == '*'
    ensures start + 3 <= n && src[n - 1] == '*'
  {}

  /** A block comment has a closing pair of its own: `(*)` is not one. */
  lemma {:induction false} CommentCloses(src: Source, start: nat)
    requires start + 2 <= |src| && CommentEnd(src, start, start + 2) != 0
    ensures var e := CommentEnd(src, start, start + 2);
            && start + 4 <= e
            && src[e - 2] == '*'
            && src[e - 1] == Closer(src[start])
  {
    var e := CommentEnd(src, start, start + 2);
    StarIsRead(src, start, e - 1);
  }

  // ----- the scanner, case by case

  function ScanBlock(src: Source, i: nat): (r: (Kind, nat))
    requires i + 2 <= |src|
    ensures i < r.1 <= |src|
  {
    var e := CommentEnd(src, i, i + 2);
    if e == 0 then (Error, i + 2) else (Comment, e)
  }

  function PropertyEnd(src: Source, i: nat): (e: nat)
    requires i < |src|
    ensures e == 0 || i < e <= |src|
  {
    if Starts(src, i, "{external}") then i + 10
    else if Starts(src, i, "{ref}") then i + 5
    else if Starts(src, i, "{constant}") then i + 10
    else if Starts(src, i, "{sized}") then i + 7
    else if Starts(src, i, "@EXTERNAL") then i + 9
    else if Starts(src, i, "@CONSTANT") then i + 9
    else 0
  }

  function ScanBrace(src: Source, i: nat): (r: (Kind, nat))
    requires i < |src|
    ensures i < r.1 <= |src|
  {
    var e := PropertyEnd(src, i);
    if e != 0 then (Property, e)
    else if src[i] == '{' && Run(src, i + 1, NotBrace) < |src| then (Pragma, Run(src, i + 1, NotBrace) + 1)
    else (Error, i + 1)
  }

  /** The end of the string whose items start at i: `$` quotes the next character, which may not be a
      line feed. 0 when it does not close. */
  function StringEnd(src: Source, i: nat, quote: char): (e: nat)
    requires i <= |src|
    ensures e == 0 || i < e <= |src|
    decreases |src| - i
  {
    if i == |src| then 0
    else if src[i] == quote then i + 1
    else if src[i] != '$' then StringEnd(src, i + 1, quote)
    else if i + 1 < |src| && src[i + 1] != '\n' then StringEnd(src, i + 2, quote)
    else 0
  }

  function ScanString(src: Source, i: nat): (r: (Kind, nat))
    requires i < |src|
    ensures i < r.1 <= |src|
  {
    var e := StringEnd(src, i + 1, src[i]);
    if e == 0 then (Error, i + 1) else (if src[i] == '\'' then StringText else WideString, e)
  }

  predicate SizeLetter(c: char) {
    var u := Upper(c);
    u == 'B' || u == 'D' || u == 'W' || u == 'L' || u == 'X'
  }

  function ScanDirect(src: Source, i: nat): (r: (Kind, nat))
    requires i < |src|
    ensures i < r.1 <= |src|
  {
    if i + 2 < |src| && (Upper(src[i + 1]) == 'I' || Upper(src[i + 1]) == 'Q' || Upper(src[i + 1]) == 'M' || Upper(src[i + 1]) == 'G')
       && (SizeLetter(src[i + 2]) || src[i + 2] == '*')
    then (DirectAccess, i + 3)
    else if i + 1 < |src| && SizeLetter(src[i + 1]) then (DirectAccess, i + 2)
    else (Error, i + 1)
  }

  function ScanWord(t: Tables, src: Source, i: nat): (r: (Kind, nat))
    requires i < |src| && Letter(src[i])
    ensures i < r.1
    ensures Bounded(t, src) ==> r.1 <= |src|
    ensures r.0 == Keyword || r.0 == Identifier || r.0 == Symbol || r.0 == CastPrefix || r.0 == TypedLiteral
  {
    var word := Run(src, i + 1, WordChars);
    var a := (if t.keyword(src[i..word]) then Keyword else Identifier, word);
    var b := if StartsUpper(src, i, "REF=") && a.1 <= i + 4 then (Symbol, i + 4) else a;
    var c := if StartsUpper(src, i, "REFERENCE TO") && b.1 <= i + 12 then (Keyword, i + 12) else b;
    if !Has(src, c.1, '#') then c
    else if t.typedLiteral(src, i) > c.1 + 1 then (TypedLiteral, t.typedLiteral(src, i))
    else (CastPrefix, c.1 + 1)
  }

  /** Groups of the class joined by single underscores, from i on: i when there is none. */
  function Groups(src: Source, i: nat, cl: Class): (e: nat)
    requires i <= |src|
    ensures i <= e <= |src|
    decreases |src| - i
  {
    var e := Run(src, i, cl);
    if e > i && Has(src, e, '_') && Groups(src, e + 1, cl) > e + 1 then Groups(src, e + 1, cl) else e
  }

  function Exponent(src: Source, i: nat): (e: nat)
    requires i <= |src|
    ensures i <= e <= |src|
  {
    if !Has(src, i, 'e') && !Has(src, i, 'E') then i
    else
      var signed := if Has(src, i + 1, '+') || Has(src, i + 1, '-') then i + 2 else i + 1;
      var e := Run(src, signed, Decimal);
      if e > signed then e else i
  }

  /** A radix prefix that ends at `from` and its digits, or i. */
  function Based(src: Source, i: nat, from: nat, cl: Class): (e: nat)
    requires i <= from <= |src|
    ensures i <= e <= |src|
  {
    var e := Groups(src, from, cl);
    if e > from then e else i
  }

  function Max(a: nat, b: nat): nat {
    if a < b then b else a
  }

  function ScanNumber(src: Source, i: nat): (r: (Kind, nat))
    requires i < |src| && In(Decimal, src[i])
    ensures i < r.1 <= |src|
  {
    var hex := if Has(src, i, '1') && Has(src, i + 1, '6') && Has(src, i + 2, '#') then Based(src, i, i + 3, Hexadecimal) else i;
    var octal := if Has(src, i, '8') && Has(src, i + 1, '#') then Based(src, i, i + 2, Octal) else i;
    var binary := if Has(src, i, '2') && Has(src, i + 1, '#') then Based(src, i, i + 2, Binary) else i;
    (Number, Max(Max(hex, octal), Max(binary, Exponent(src, Groups(src, i, Decimal)))))
  }

  predicate OneOf(c: char, word: Source) {
    exists k :: 0 <= k < |word| && word[k] == c
  }

  function ScanSymbol(src: Source, i: nat): (r: (Kind, nat))
    requires i < |src|
    ensures i < r.1 <= |src|
  {
    var c := src[i];
    if c == '.' && Has(src, i + 1, '.') && Has(src, i + 2, '.') then (Symbol, i + 3)
    else if (Has(src, i + 1, '=') && (c == ':' || c == '<' || c == '>')) || (Has(src, i + 1, '>') && (c == '=' || c == '<'))
            || (c == '.' && Has(src, i + 1, '.')) || (c == '*' && Has(src, i + 1, '*'))
    then (Symbol, i + 2)
    else if OneOf(c, ":;()[],.+-*/=<>&^") then (Symbol, i + 1)
    else (Error, i + 1)
  }

  /** `_scan`: the kind and the end of the token at i. */
  function Scan(t: Tables, src: Source, i: nat): (r: (Kind, nat))
    requires i < |src|
    ensures i < r.1
    ensures Bounded(t, src) ==> r.1 <= |src|
  {
    var c := src[i];
    if In(Blanks, c) then (Whitespace, Run(src, i + 1, Blanks))
    else if (c == '(' || c == '/') && Has(src, i + 1, '*') then ScanBlock(src, i)
    else if c == '/' && Has(src, i + 1, '/') then (Comment, Run(src, i, NotNewline))
    else if c == '{' || c == '@' then ScanBrace(src, i)
    else if c == '\'' || c == '"' then ScanString(src, i)
    else if c == '%' then ScanDirect(src, i)
    else if Letter(c) then ScanWord(t, src, i)
    else if In(Decimal, c) then ScanNumber(src, i)
    else ScanSymbol(src, i)
  }

  // ----- lines and columns

  /** Line feeds among the first n characters. */
  function Newlines(s: Source, n: nat): nat
    requires n <= |s|
  {
    if n == 0 then 0 else Newlines(s, n - 1) + if s[n - 1] == '\n' then 1 else 0
  }

  /** One past the last line feed among the first n characters, or 0. */
  function LineStart(s: Source, n: nat): (p: nat)
    requires n <= |s|
    ensures p <= n
    ensures p > 0 ==> s[p - 1] == '\n'
    ensures forall k :: p <= k < n ==> s[k] != '\n'
  {
    if n == 0 then 0 else if s[n - 1] == '\n' then n else LineStart(s, n - 1)
  }

  lemma {:induction false} NewlinesOfPart(src: Source, i: nat, n: nat)
    requires i + n <= |src|
    ensures var text := src[i..i + n];
            && Newlines(src, i + n) == Newlines(src, i) + Newlines(text, n)
            && LineStart(src, i + n) == if Newlines(text, n) == 0 then LineStart(src, i) else i + LineStart(text, n)
  {
    if n > 0 {
      NewlinesOfPart(src, i, n - 1);
      SamePrefix(src[i..i + n - 1], src[i..i + n], n - 1);
    }
  }

  lemma {:induction false} SamePrefix(a: Source, b: Source, n: nat)
    requires n <= |a| && n <= |b| && forall k :: 0 <= k < n ==> a[k] == b[k]
    ensures Newlines(a, n) == Newlines(b, n) && LineStart(a, n) == LineStart(b, n)
  {
    if n > 0 { SamePrefix(a, b, n - 1); }
  }

  // ----- the token list

  /** A token is what the scanner finds at its start, and carries that place's line and column. */
  predicate Fits(t: Tables, src: Source, k: Token) {
    && k.start < k.end <= |src|
    && k.text == src[k.start..k.end]
    && (k.kind, k.end) == Scan(t, src, k.start)
    && k.line == 1 + Newlines(src, k.start)
    && k.column == k.start - LineStart(src, k.start) + 1
  }

  /** Where the first n tokens end. */
  function EndOf(tokens: seq<Token>, n: nat): nat
    requires n <= |tokens|
  {
    if n == 0 then 0 else tokens[n - 1].end
  }

  predicate Nth(t: Tables, src: Source, tokens: seq<Token>, k: nat)
    requires k < |tokens|
  {
    Fits(t, src, tokens[k]) && tokens[k].start == EndOf(tokens, k)
  }

  /** Scanned tokens, of which the first starts at 0 and each other where the one before it ends. */
  predicate TokensOf(t: Tables, src: Source, tokens: seq<Token>) {
    forall k {:trigger Nth(t, src, tokens, k)} :: 0 <= k < |tokens| ==> Nth(t, src, tokens, k)
  }

  /** The tokens cover the whole source. */
  predicate Covers(t: Tables, src: Source, tokens: seq<Token>) {
    TokensOf(t, src, tokens) && EndOf(tokens, |tokens|) == |src|
  }

  function Joined(tokens: seq<Token>, n: nat): Source
    requires n <= |tokens|
  {
    if n == 0 then [] else Joined(tokens, n - 1) + tokens[n - 1].text
  }

  /** Joining the texts gives the source back. */
  lemma {:induction false} JoinedIsSource(t: Tables, src: Source, tokens: seq<Token>, n: nat)
    requires TokensOf(t, src, tokens) && n <= |tokens|
    ensures EndOf(tokens, n) <= |src| && Joined(tokens, n) == src[..EndOf(tokens, n)]
  {
    if n > 0 {
      JoinedIsSource(t, src, tokens, n - 1);
      assert Nth(t, src, tokens, n - 1);
      var last := tokens[n - 1];
      assert src[..last.end] == src[..last.start] + src[last.start..last.end];
    }
  }

  /** Tokens that come later start at or after the end of those before them. */
  lemma {:induction false} EndsIncrease(t: Tables, src: Source, tokens: seq<Token>, i: nat, j: nat)
    requires TokensOf(t, src, tokens) && i <= j <= |tokens|
    ensures EndOf(tokens, i) + (j - i) <= EndOf(tokens, j) <= |src|
  {
    if i < j {
      assert Nth(t, src, tokens, j - 1);
      EndsIncrease(t, src, tokens, i, j - 1);
    } else if i > 0 {
      assert Nth(t, src, tokens, i - 1);
    }
  }

  lemma {:induction false} SamePrefixOfTokens(t: Tables, src: Source, a: seq<Token>, b: seq<Token>, n: nat)
    requires TokensOf(t, src, a) && TokensOf(t, src, b) && n <= |a| && n <= |b|
    ensures forall k :: 0 <= k < n ==> a[k] == b[k]
  {
    if n > 0 {
      SamePrefixOfTokens(t, src, a, b, n - 1);
      assert Nth(t, src, a, n - 1) && Nth(t, src, b, n - 1);
    }
  }

  /** Only one token list covers the source. */
  lemma {:induction false} TokensUnique(t: Tables, src: Source, a: seq<Token>, b: seq<Token>)
    requires Covers(t, src, a) && Covers(t, src, b)
    ensures a == b
  {
    var n := if |a| <= |b| then |a| else |b|;
    SamePrefixOfTokens(t, src, a, b, n);
    EndsIncrease(t, src, a, n, |a|);
    EndsIncrease(t, src, b, n, |b|);
  }

  lemma {:induction false} TokenAdded(t: Tables, src: Source, tokens: seq<Token>, k: Token)
    requires TokensOf(t, src, tokens) && Fits(t, src, k) && k.start == EndOf(tokens, |tokens|)
    ensures TokensOf(t, src, tokens + [k]) && EndOf(tokens + [k], |tokens| + 1) == k.end
  {
    var longer := tokens + [k];
    forall i | 0 <= i < |longer|
      ensures Nth(t, src, longer, i)
    {
      if i < |tokens| {
        assert Nth(t, src, tokens, i);
      }
    }
  }

  method TokenizeLossless(t: Tables, src: Source) returns (tokens: seq<Token>)
    requires Bounded(t, src)
    ensures Covers(t, src, tokens)
    ensures Joined(tokens, |tokens|) == src
  {
    tokens := [];
    var i, line, lineStart := 0, 1, 0;
    while i < |src|
      invariant i <= |src|
      invariant TokensOf(t, src, tokens) && EndOf(tokens, |tokens|) == i
      invariant line == 1 + Newlines(src, i) && lineStart == LineStart(src, i)
      decreases |src| - i
    {
      var (kind, end) := Scan(t, src, i);
      var text := src[i..end];
      var token := Token(kind, text, i, end, line, i - lineStart + 1);
      TokenAdded(t, src, tokens, token);
      tokens := tokens + [token];
      var newlines := Newlines(text, |text|);
      NewlinesOfPart(src, i, end - i);
      if newlines > 0 {
        line := line + newlines;
        lineStart := i + LineStart(text, |text|);
      }
      i := end;
    }
    JoinedIsSource(t, src, tokens, |tokens|);
    assert src[..|src|] == src;
  }

  // ----- the tokens that the parser sees

  predicate Trivia(k: Token) {
    k.kind == Whitespace || k.kind == Comment || k.kind == Pragma
  }

  function Significant(tokens: seq<Token>, n: nat): seq<Token>
    requires n <= |tokens|
  {
    if n == 0 then []
    else Significant(tokens, n - 1) + if Trivia(tokens[n - 1]) then [] else [tokens[n - 1]]
  }

  /** In bounds, in order and apart. */
  predicate Apart(tokens: seq<Token>, e: nat) {
    && (forall i :: 0 <= i < |tokens| ==> tokens[i].start < tokens[i].end <= e)
    && (forall i, j :: 0 <= i < j < |tokens| ==> tokens[i].end <= tokens[j].start)
  }

  lemma {:induction false} ScannedApart(t: Tables, src: Source, tokens: seq<Token>)
    requires Covers(t, src, tokens)
    ensures Apart(tokens, |src|)
  {
    forall i | 0 <= i < |tokens|
      ensures tokens[i].start < tokens[i].end <= |src|
    {
      assert Nth(t, src, tokens, i);
    }
    forall i, j | 0 <= i < j < |tokens|
      ensures tokens[i].end <= tokens[j].start
    {
      assert Nth(t, src, tokens, j);
      EndsIncrease(t, src, tokens, i + 1, j);
    }
  }

  /** The significant tokens are those that are not trivia, still in order and apart. */
  lemma {:induction false} SignificantApart(tokens: seq<Token>, n: nat, e: nat)
    requires n <= |tokens| && Apart(tokens, e)
    ensures Apart(Significant(tokens, n), EndOf(tokens, n))
    ensures EndOf(tokens, n) <= e
    ensures forall k :: k in Significant(tokens, n) <==> !Trivia(k) && k in tokens[..n]
  {
    if n > 0 {
      SignificantApart(tokens, n - 1, e);
      var r := Significant(tokens, n - 1);
      var last := tokens[n - 1];
      assert EndOf(tokens, n - 1) <= last.start;
      assert tokens[..n] == tokens[..n - 1] + [last];
      if !Trivia(last) {
        ApartAdded(r, EndOf(tokens, n - 1), last);
      }
    }
  }

  lemma {:induction false} ApartAdded(tokens: seq<Token>, e: nat, k: Token)
    requires Apart(tokens, e) && e <= k.start < k.end
    ensures Apart(tokens + [k], k.end)
  {}
}
