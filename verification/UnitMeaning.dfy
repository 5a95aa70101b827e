/** What `split_units` of compiler/intake/structure.py takes for a member, a namespace name and an open
    namespace, token by token. */
module UnitMeaning {
  import opened Lexer
  import opened UnitSplit

  // ----- members

  /** The end of the END keyword at k, with a semicolon that follows directly. */
  predicate EndsWith(sig: seq<Token>, k: nat, end: nat)
    requires k < |sig|
  {
    end == if k + 1 < |sig| && sig[k + 1].text == ";" then sig[k + 1].end else sig[k].end
  }

  /** The member at j runs to the first END of its own kind, or, when that of its owner or the end of the file comes
      first, to the token before. */
  predicate MemberRuns(g: Grammar, sig: seq<Token>, j: nat, ownerEnd: Word, k: nat, m: Member)
    requires j < |sig| && WordAt(g, sig, j).Opens?
  {
    var own := EndOfKind(m.kind);
    && WordAt(g, sig, j) == Opens(m.kind) && m.name == g.declared(sig, j) && m.start == sig[j].start && m.line == sig[j].line
    && j < k <= |sig|
    && (forall x :: j < x < k ==> WordAt(g, sig, x) != own && WordAt(g, sig, x) != ownerEnd)
    && if k < |sig| && WordAt(g, sig, k) == own then EndsWith(sig, k, m.end)
       else (k < |sig| ==> WordAt(g, sig, k) == ownerEnd) && m.end == sig[k - 1].end
  }

  lemma {:induction false} MemberMeans(g: Grammar, sig: seq<Token>, j: nat, ownerEnd: Word)
    requires j < |sig| && WordAt(g, sig, j).Opens?
    ensures MemberRuns(g, sig, j, ownerEnd, MemberStop(g, sig, j, ownerEnd), MemberAt(g, sig, j, ownerEnd))
    ensures MemberClosed(g, sig, j, ownerEnd)
       <==> var k := MemberStop(g, sig, j, ownerEnd); k < |sig| && WordAt(g, sig, k) == EndOfKind(WordAt(g, sig, j).kind)
  {
    FirstOfIsFirst(g, sig, j + 1, EndOfKind(WordAt(g, sig, j).kind), ownerEnd);
  }

  /** A unit ends with its END and a semicolon, or with the last token of the file. */
  lemma {:induction false} UnitEnds(g: Grammar, sig: seq<Token>, ms: seq<Marker>, s: Span, u: Unit)
    requires Draws(g, sig, ms, s, u)
    ensures if s.last < |sig| then EndsWith(sig, s.last, u.end) else u.end == sig[|sig| - 1].end
  {
  }

  /** Only keywords and identifiers have a meaning to the splitter. */
  lemma {:induction false} OnlyWordsMean(g: Grammar, sig: seq<Token>, i: nat)
    requires i < |sig|
    ensures WordAt(g, sig, i) == if Worded(sig[i]) then g.word(sig[i].text) else Plain
  {
  }

  // ----- names of namespaces

  /** Words at every second token from j on, with dots between them; a dot behind the last word belongs to the name. */
  predicate NameAt(sig: seq<Token>, j: nat, parts: seq<Source>, next: nat) {
    && j <= next <= |sig|
    && (forall p :: 0 <= p < |parts| ==> PartAt(sig, j, parts, p))
    && if parts == [] then next == j && (j < |sig| ==> !Worded(sig[j]))
       else if DotAt(sig, j + 2 * |parts| - 1) then next == j + 2 * |parts| && (next < |sig| ==> !Worded(sig[next]))
       else next == j + 2 * |parts| - 1
  }

  predicate Worded(k: Token) {
    k.kind in {Keyword, Identifier}
  }

  predicate DotAt(sig: seq<Token>, k: nat) {
    k < |sig| && sig[k].text == "."
  }

  predicate PartAt(sig: seq<Token>, j: nat, parts: seq<Source>, p: nat)
    requires p < |parts|
  {
    && j + 2 * p < |sig| && Worded(sig[j + 2 * p]) && parts[p] == sig[j + 2 * p].text
    && (p > 0 ==> DotAt(sig, j + 2 * p - 1))
  }

  lemma {:induction false} NameMeans(sig: seq<Token>, j: nat, parts: seq<Source>)
    requires j <= |sig|
    ensures var (all, next) := NameFrom(sig, j, parts);
            parts <= all && NameAt(sig, j, all[|parts|..], next)
    decreases |sig| - j
  {
    if j < |sig| && IsWord(sig[j]) {
      var (all, next) := NameFrom(sig, j, parts);
      if DotAt(sig, j + 1) {
        NameMeans(sig, j + 2, parts + [sig[j].text]);
        var rest := all[|parts| + 1..];
        assert all[|parts|..] == [sig[j].text] + rest;
        NameLonger(sig, j, sig[j].text, rest, next);
      } else {
        assert all[|parts|..] == [sig[j].text];
      }
    }
  }

  lemma {:induction false} NameLonger(sig: seq<Token>, j: nat, word: Source, rest: seq<Source>, next: nat)
    requires j < |sig| && IsWord(sig[j]) && word == sig[j].text && DotAt(sig, j + 1) && NameAt(sig, j + 2, rest, next)
    ensures NameAt(sig, j, [word] + rest, next)
  {
    var parts := [word] + rest;
    forall p | 0 <= p < |parts| ensures PartAt(sig, j, parts, p) {
      if p > 0 { assert PartAt(sig, j + 2, rest, p - 1); }
    }
  }

  // ----- open namespaces

  predicate OpensAt(g: Grammar, sig: seq<Token>, spans: seq<Span>, x: nat)
    requires x < |sig|
  {
    WordAt(g, sig, x) == Namespace && !NamePart(g, sig, spans, x) && !InSpan(spans, x)
  }

  predicate ClosesAt(g: Grammar, sig: seq<Token>, spans: seq<Span>, x: nat)
    requires x < |sig|
  {
    WordAt(g, sig, x) == EndNamespace && !NamePart(g, sig, spans, x) && !InSpan(spans, x)
  }

  /** How many namespaces are open before token i: an END_NAMESPACE too many closes none. */
  function Height(g: Grammar, sig: seq<Token>, spans: seq<Span>, i: nat): nat
    requires i <= |sig|
  {
    if i == 0 then 0
    else
      var h := Height(g, sig, spans, i - 1);
      if OpensAt(g, sig, spans, i - 1) then h + 1 else if ClosesAt(g, sig, spans, i - 1) && h > 0 then h - 1 else h
  }

  /** The namespace that opens at x is open before i: since then it has not been closed. */
  predicate StillOpen(g: Grammar, sig: seq<Token>, spans: seq<Span>, x: nat, i: nat)
    requires x < i <= |sig|
  {
    OpensAt(g, sig, spans, x) && forall y :: x < y <= i ==> Height(g, sig, spans, y) > Height(g, sig, spans, x)
  }

  /** The keywords of the namespaces that are open before i, outermost first. */
  function OpenAt(g: Grammar, sig: seq<Token>, spans: seq<Span>, i: nat): seq<nat>
    requires i <= |sig|
  {
    if i == 0 then []
    else
      var before := OpenAt(g, sig, spans, i - 1);
      if OpensAt(g, sig, spans, i - 1) then before + [i - 1]
      else if ClosesAt(g, sig, spans, i - 1) && before != [] then before[..|before| - 1] else before
  }

  ghost predicate Opened(g: Grammar, sig: seq<Token>, spans: seq<Span>, i: nat, at: seq<nat>)
    requires i <= |sig|
  {
    && |at| == Height(g, sig, spans, i)
    && (forall a :: 0 <= a < |at| ==> at[a] < i && Height(g, sig, spans, at[a]) == a && StillOpen(g, sig, spans, at[a], i))
    && forall x: nat :: x < i && StillOpen(g, sig, spans, x, i) ==> x in at
  }

  lemma {:induction false} StillNext(g: Grammar, sig: seq<Token>, spans: seq<Span>, x: nat, i: nat)
    requires x < i < |sig|
    ensures StillOpen(g, sig, spans, x, i + 1)
       <==> StillOpen(g, sig, spans, x, i) && Height(g, sig, spans, i + 1) > Height(g, sig, spans, x)
  {
  }

  lemma {:induction false} OneOpens(g: Grammar, sig: seq<Token>, spans: seq<Span>, i: nat, at: seq<nat>)
    requires i < |sig| && Opened(g, sig, spans, i, at) && OpensAt(g, sig, spans, i)
    ensures Opened(g, sig, spans, i + 1, at + [i])
  {
    var next := at + [i];
    forall a | 0 <= a < |at| ensures StillOpen(g, sig, spans, at[a], i + 1) {
      StillNext(g, sig, spans, at[a], i);
    }
    forall x: nat | x < i + 1 && StillOpen(g, sig, spans, x, i + 1) ensures x in next {
      if x < i { StillNext(g, sig, spans, x, i); } else { assert next[|at|] == i; }
    }
  }

  lemma {:induction false} OneCloses(g: Grammar, sig: seq<Token>, spans: seq<Span>, i: nat, at: seq<nat>)
    requires i < |sig| && Opened(g, sig, spans, i, at) && ClosesAt(g, sig, spans, i) && at != []
    ensures Opened(g, sig, spans, i + 1, at[..|at| - 1])
  {
    var next := at[..|at| - 1];
    forall a | 0 <= a < |next| ensures StillOpen(g, sig, spans, next[a], i + 1) {
      StillNext(g, sig, spans, at[a], i);
    }
    forall x: nat | x < i + 1 && StillOpen(g, sig, spans, x, i + 1) ensures x in next {
      if x < i {
        StillNext(g, sig, spans, x, i);
        var a :| 0 <= a < |at| && at[a] == x;
        assert next[a] == x;
      }
    }
  }

  lemma {:induction false} NoneOpens(g: Grammar, sig: seq<Token>, spans: seq<Span>, i: nat, at: seq<nat>)
    requires i < |sig| && Opened(g, sig, spans, i, at) && !OpensAt(g, sig, spans, i) && (ClosesAt(g, sig, spans, i) ==> at == [])
    ensures Opened(g, sig, spans, i + 1, at)
  {
    forall a | 0 <= a < |at| ensures StillOpen(g, sig, spans, at[a], i + 1) {
      StillNext(g, sig, spans, at[a], i);
    }
    forall x: nat | x < i + 1 && StillOpen(g, sig, spans, x, i + 1) ensures x in at {
      if x < i { StillNext(g, sig, spans, x, i); }
    }
  }

  lemma {:induction false} OpenNext(g: Grammar, sig: seq<Token>, spans: seq<Span>, i: nat)
    requires i < |sig| && Opened(g, sig, spans, i, OpenAt(g, sig, spans, i))
    ensures Opened(g, sig, spans, i + 1, OpenAt(g, sig, spans, i + 1))
  {
    var at := OpenAt(g, sig, spans, i);
    if OpensAt(g, sig, spans, i) { OneOpens(g, sig, spans, i, at); }
    else if ClosesAt(g, sig, spans, i) && at != [] { OneCloses(g, sig, spans, i, at); }
    else { NoneOpens(g, sig, spans, i, at); }
  }

  ghost predicate NamesOf(sig: seq<Token>, at: seq<nat>, open: seq<seq<Source>>) {
    |open| == |at| && forall a :: 0 <= a < |at| ==> at[a] < |sig| && open[a] == NameFrom(sig, at[a] + 1, []).0
  }

  lemma {:induction false} NamesAdded(sig: seq<Token>, at: seq<nat>, open: seq<seq<Source>>, i: nat)
    requires NamesOf(sig, at, open) && i < |sig|
    ensures NamesOf(sig, at + [i], open + [NameFrom(sig, i + 1, []).0])
  {
  }

  lemma {:induction false} NamesDropped(sig: seq<Token>, at: seq<nat>, open: seq<seq<Source>>)
    requires NamesOf(sig, at, open) && at != []
    ensures NamesOf(sig, at[..|at| - 1], open[..|open| - 1])
  {
  }

  lemma {:induction false} OuterNext(g: Grammar, sig: seq<Token>, spans: seq<Span>, i: nat)
    requires i < |sig|
    ensures var open := OuterAt(g, sig, spans, i).open;
            OuterAt(g, sig, spans, i + 1).open == if OpensAt(g, sig, spans, i) then open + [NameFrom(sig, i + 1, []).0]
                                                  else if ClosesAt(g, sig, spans, i) && open != [] then open[..|open| - 1] else open
  {
  }

  lemma {:induction false} NamesNext(g: Grammar, sig: seq<Token>, spans: seq<Span>, i: nat)
    requires i < |sig| && NamesOf(sig, OpenAt(g, sig, spans, i), OuterAt(g, sig, spans, i).open)
    ensures NamesOf(sig, OpenAt(g, sig, spans, i + 1), OuterAt(g, sig, spans, i + 1).open)
  {
    var at, open := OpenAt(g, sig, spans, i), OuterAt(g, sig, spans, i).open;
    OuterNext(g, sig, spans, i);
    if OpensAt(g, sig, spans, i) { NamesAdded(sig, at, open, i); }
    else if ClosesAt(g, sig, spans, i) && at != [] { NamesDropped(sig, at, open); }
  }

  /** The open namespaces are those whose keyword the nesting has not come back to, each with its name. */
  lemma {:induction false} NamespacesMean(g: Grammar, sig: seq<Token>, spans: seq<Span>, i: nat)
    requires i <= |sig|
    ensures Opened(g, sig, spans, i, OpenAt(g, sig, spans, i))
    ensures NamesOf(sig, OpenAt(g, sig, spans, i), OuterAt(g, sig, spans, i).open)
  {
    if i > 0 {
      NamespacesMean(g, sig, spans, i - 1);
      OpenNext(g, sig, spans, i - 1);
      NamesNext(g, sig, spans, i - 1);
    }
  }
}
