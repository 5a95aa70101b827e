/** `split_units` of compiler/intake/structure.py, over the significant tokens of a file. */
module UnitSplit {
  import opened Wrappers
  import opened Lexer

  datatype UnitKind =
    | FunctionUnit | FunctionBlock | Program | ClassUnit | Interface | TypeUnit | Configuration | DataBlock
    | OrganizationBlock | VarGlobal | Actions | MethodUnit | PropertyUnit | Action | PropertyGet | PropertySet

  /** What a canonical keyword means to the splitter. `Closes` names the END keyword of a kind. */
  datatype Word = Opens(kind: UnitKind) | Closes(kind: UnitKind) | Namespace | EndNamespace | Plain

  /** The canonical keywords, the names of declarations and the marker comments. */
  datatype Grammar = Grammar(word: Source -> Word, declared: (seq<Token>, nat) -> Source, marker: Source -> Maybe<Source>)

  datatype Member = Member(kind: UnitKind, name: Source, start: nat, end: nat, line: nat)

  /** `namespace` holds the name parts of the namespaces around the unit, outermost first. */
  datatype Unit = Unit(kind: UnitKind, name: Source, start: nat, end: nat, line: nat, endLine: nat,
                       namespace: seq<seq<Source>>, marker: Maybe<Source>, closed: bool, members: seq<Member>)

  /** The END keyword is shared by the three property kinds. */
  function EndOfKind(k: UnitKind): Word {
    if k == PropertyGet || k == PropertySet then Closes(PropertyUnit) else Closes(k)
  }

  predicate Container(k: UnitKind) {
    k == FunctionBlock || k == ClassUnit || k == Interface || k == Program
  }

  predicate MemberKind(k: UnitKind) {
    k == MethodUnit || k == PropertyUnit || k == Action || k == PropertyGet || k == PropertySet
  }

  /** Kinds whose keyword inside a unit of the same kind opens a nested one. */
  predicate Nests(k: UnitKind) {
    k != VarGlobal && k != TypeUnit
  }

  predicate IsWord(k: Token) {
    k.kind == Keyword || k.kind == Identifier
  }

  function WordAt(g: Grammar, sig: seq<Token>, i: nat): Word
    requires i < |sig|
  {
    if IsWord(sig[i]) then g.word(sig[i].text) else Plain
  }

  predicate Semicolon(sig: seq<Token>, i: nat) {
    i < |sig| && sig[i].text == ";"
  }

  /** `_span_end`: the end of the END keyword at j with a directly following semicolon. */
  function SpanEnd(sig: seq<Token>, j: nat): nat
    requires j < |sig|
  {
    if Semicolon(sig, j + 1) then sig[j + 1].end else sig[j].end
  }

  /** A semicolon is not a keyword. */
  predicate Sound(g: Grammar) {
    g.word(";") == Plain
  }

  // ----- one member

  /** The first index from k on whose word is a or b, or the token count. */
  function FirstOf(g: Grammar, sig: seq<Token>, k: nat, a: Word, b: Word): (r: nat)
    requires k <= |sig|
    ensures k <= r <= |sig|
    decreases |sig| - k
  {
    if k == |sig| || WordAt(g, sig, k) == a || WordAt(g, sig, k) == b then k else FirstOf(g, sig, k + 1, a, b)
  }

  lemma {:induction false} FirstOfIsFirst(g: Grammar, sig: seq<Token>, k: nat, a: Word, b: Word)
    requires k <= |sig|
    ensures var r := FirstOf(g, sig, k, a, b);
            && (r < |sig| ==> WordAt(g, sig, r) == a || WordAt(g, sig, r) == b)
            && forall m :: k <= m < r ==> WordAt(g, sig, m) != a && WordAt(g, sig, m) != b
    decreases |sig| - k
  {
    if k < |sig| && WordAt(g, sig, k) != a && WordAt(g, sig, k) != b {
      FirstOfIsFirst(g, sig, k + 1, a, b);
    }
  }

  /** Where the member at j ends: at its own END, or just before the END of its owner. */
  function MemberStop(g: Grammar, sig: seq<Token>, j: nat, ownerEnd: Word): (k: nat)
    requires j < |sig| && WordAt(g, sig, j).Opens?
    ensures j < k <= |sig|
  {
    FirstOf(g, sig, j + 1, EndOfKind(WordAt(g, sig, j).kind), ownerEnd)
  }

  predicate MemberClosed(g: Grammar, sig: seq<Token>, j: nat, ownerEnd: Word)
    requires j < |sig| && WordAt(g, sig, j).Opens?
  {
    var k := MemberStop(g, sig, j, ownerEnd);
    k < |sig| && WordAt(g, sig, k) == EndOfKind(WordAt(g, sig, j).kind)
  }

  function MemberAt(g: Grammar, sig: seq<Token>, j: nat, ownerEnd: Word): Member
    requires j < |sig| && WordAt(g, sig, j).Opens?
  {
    var k := MemberStop(g, sig, j, ownerEnd);
    Member(WordAt(g, sig, j).kind, g.declared(sig, j), sig[j].start,
           if MemberClosed(g, sig, j, ownerEnd) then SpanEnd(sig, k) else sig[k - 1].end, sig[j].line)
  }

  method FindStop(g: Grammar, sig: seq<Token>, from: nat, a: Word, b: Word) returns (k: nat)
    requires from <= |sig|
    ensures k == FirstOf(g, sig, from, a, b)
  {
    k := from;
    while k < |sig|
      invariant from <= k <= |sig| && FirstOf(g, sig, k, a, b) == FirstOf(g, sig, from, a, b)
    {
      if WordAt(g, sig, k) == a || WordAt(g, sig, k) == b {
        return;
      }
      k := k + 1;
    }
  }

  /** Where the tokens before index j end, a semicolon at j included: everything read so far. */
  function Reach(sig: seq<Token>, j: nat): nat
    requires 0 < j <= |sig|
  {
    SpanEnd(sig, j - 1)
  }

  lemma {:induction false} ReachGrows(g: Grammar, sig: seq<Token>, e: nat, j: nat, k: nat)
    requires Apart(sig, e) && 0 < j <= k <= |sig|
    ensures Reach(sig, j) <= Reach(sig, k) <= e
  {}

  /** The member that opens at j, and the index at which the scan of its owner goes on: an unclosed member
      ends where its owner ends. */
  method TakeMember(g: Grammar, sig: seq<Token>, e: nat, j: nat, ownerEnd: Word) returns (m: Member, next: nat)
    requires Apart(sig, e) && j < |sig| && WordAt(g, sig, j).Opens?
    ensures m == MemberAt(g, sig, j, ownerEnd)
    ensures next == MemberStop(g, sig, j, ownerEnd) + if MemberClosed(g, sig, j, ownerEnd) then 1 else 0
    ensures j < next <= |sig| && m.start == sig[j].start < m.end <= Reach(sig, next)
  {
    var kind := WordAt(g, sig, j).kind;
    var k := FindStop(g, sig, j + 1, EndOfKind(kind), ownerEnd);
    var closed := k < |sig| && WordAt(g, sig, k) == EndOfKind(kind);
    var end := if closed then SpanEnd(sig, k) else sig[k - 1].end;
    m := Member(kind, g.declared(sig, j), sig[j].start, end, sig[j].line);
    next := if closed then k + 1 else k;
  }

  // ----- one unit

  /** Nested units that are open just before j, of a unit that opens at i: tokens in its members, which take
      up `spans`, do not count. */
  function Depth(g: Grammar, sig: seq<Token>, kind: UnitKind, spans: seq<Span>, i: nat, j: nat): int
    requires i < j <= |sig|
    decreases j
  {
    if j == i + 1 then 0
    else Depth(g, sig, kind, spans, i, j - 1) + if InSpan(spans, j - 1) then 0 else Weight(kind, WordAt(g, sig, j - 1))
  }

  function Weight(kind: UnitKind, w: Word): int {
    if w == EndOfKind(kind) then -1 else if w == Opens(kind) && Nests(kind) then 1 else 0
  }

  predicate TakenAt(g: Grammar, sig: seq<Token>, kind: UnitKind, spans: seq<Span>, i: nat, m: nat)
    requires i < m < |sig|
  {
    WordAt(g, sig, m) == EndOfKind(kind) ==> InSpan(spans, m) || Depth(g, sig, kind, spans, i, m) > 0
  }

  /** Every END of the kind before j stands in a member or closes a nested unit. */
  predicate OpenUntil(g: Grammar, sig: seq<Token>, kind: UnitKind, spans: seq<Span>, i: nat, j: nat)
    requires i < j <= |sig|
    decreases j
  {
    j == i + 1 || (OpenUntil(g, sig, kind, spans, i, j - 1) && TakenAt(g, sig, kind, spans, i, j - 1))
  }

  /** The unit from i ends at j: the first END of its kind outside members that no nested unit takes. */
  predicate MatchedAt(g: Grammar, sig: seq<Token>, kind: UnitKind, spans: seq<Span>, i: nat, j: nat)
    requires i < j <= |sig|
  {
    && (j < |sig| ==> WordAt(g, sig, j) == EndOfKind(kind) && Depth(g, sig, kind, spans, i, j) == 0)
    && OpenUntil(g, sig, kind, spans, i, j)
  }

  /** What the scan of the unit knows about its depth. */
  predicate Counted(g: Grammar, sig: seq<Token>, kind: UnitKind, spans: seq<Span>, i: nat, j: nat, depth: nat)
    requires i < j <= |sig|
  {
    depth == Depth(g, sig, kind, spans, i, j) && OpenUntil(g, sig, kind, spans, i, j)
  }

  /** Spans between i and j, in order and apart. */
  predicate SpansApart(spans: seq<Span>, i: nat, j: nat) {
    && (forall a :: 0 <= a < |spans| ==> i < spans[a].first <= spans[a].last < j)
    && (forall a, b :: 0 <= a < b < |spans| ==> spans[a].last < spans[b].first)
  }

  /** The span of a member runs from its keyword to where the scan goes on. */
  predicate SpansMember(g: Grammar, sig: seq<Token>, kind: UnitKind, s: Span, m: Member) {
    && s.first < |sig|
    && MemberOpensAt(g, sig, kind, s.first)
    && m == MemberAt(g, sig, s.first, EndOfKind(kind))
    && s.last + 1 == NextIndex(g, sig, kind, s.first)
  }

  predicate AllMembers(g: Grammar, sig: seq<Token>, kind: UnitKind, spans: seq<Span>, ms: seq<Member>) {
    |spans| == |ms| && forall a :: 0 <= a < |ms| ==> SpansMember(g, sig, kind, spans[a], ms[a])
  }

  /** No member keyword between i and j is left out. */
  predicate NoneLeftOut(g: Grammar, sig: seq<Token>, kind: UnitKind, spans: seq<Span>, i: nat, j: nat)
    requires j <= |sig|
  {
    forall x :: i < x < j && MemberOpensAt(g, sig, kind, x) ==> InSpan(spans, x)
  }

  /** The members of the unit from i, once the tokens before j have been read. */
  predicate SpansMembers(g: Grammar, sig: seq<Token>, kind: UnitKind, spans: seq<Span>, ms: seq<Member>, i: nat, j: nat)
    requires j <= |sig|
  {
    SpansApart(spans, i, j) && AllMembers(g, sig, kind, spans, ms) && NoneLeftOut(g, sig, kind, spans, i, j)
  }

  lemma {:induction false} DepthStable(g: Grammar, sig: seq<Token>, kind: UnitKind, spans: seq<Span>, s: Span, i: nat, j: nat)
    requires i < j <= |sig| && j <= s.first
    ensures Depth(g, sig, kind, spans + [s], i, j) == Depth(g, sig, kind, spans, i, j)
    decreases j
  {
    if j > i + 1 {
      DepthStable(g, sig, kind, spans, s, i, j - 1);
      SpanBefore(spans, s, j - 1);
    }
  }

  lemma {:induction false} OpenStable(g: Grammar, sig: seq<Token>, kind: UnitKind, spans: seq<Span>, s: Span, i: nat, j: nat)
    requires i < j <= |sig| && j <= s.first && OpenUntil(g, sig, kind, spans, i, j)
    ensures OpenUntil(g, sig, kind, spans + [s], i, j)
    decreases j
  {
    if j > i + 1 {
      OpenStable(g, sig, kind, spans, s, i, j - 1);
      DepthStable(g, sig, kind, spans, s, i, j - 1);
      SpanBefore(spans, s, j - 1);
    }
  }

  /** A token outside members counts; an END among them must close a nested unit. */
  lemma {:induction false} CountToken(g: Grammar, sig: seq<Token>, kind: UnitKind, spans: seq<Span>, i: nat, j: nat, depth: nat)
    requires i < j < |sig| && Counted(g, sig, kind, spans, i, j, depth) && !InSpan(spans, j)
    requires WordAt(g, sig, j) == EndOfKind(kind) ==> depth > 0
    ensures Counted(g, sig, kind, spans, i, j + 1, depth + Weight(kind, WordAt(g, sig, j)))
  {
  }

  /** The tokens of a member do not count. */
  lemma {:induction false} CountMember(g: Grammar, sig: seq<Token>, kind: UnitKind, spans: seq<Span>, i: nat, j: nat, k: nat, depth: nat)
    requires i < j <= k <= |sig| && Counted(g, sig, kind, spans, i, j, depth) && forall x :: j <= x < k ==> InSpan(spans, x)
    ensures Counted(g, sig, kind, spans, i, k, depth)
    decreases k
  {
    if j < k {
      CountMember(g, sig, kind, spans, i, j, k - 1, depth);
    }
  }

  /** The members lie in order and apart between `from` and `to`. */
  predicate MembersWithin(ms: seq<Member>, from: nat, to: nat) {
    && (forall a :: 0 <= a < |ms| ==> from <= ms[a].start < ms[a].end <= to)
    && (forall a, b :: 0 <= a < b < |ms| ==> ms[a].end <= ms[b].start)
  }

  lemma {:induction false} MemberAdded(ms: seq<Member>, from: nat, to: nat, m: Member, later: nat)
    requires MembersWithin(ms, from, to) && from <= to <= m.start < m.end <= later
    ensures MembersWithin(ms + [m], from, later)
  {}

  lemma {:induction false} MembersWiden(ms: seq<Member>, from: nat, to: nat, from': nat, to': nat)
    requires MembersWithin(ms, from, to) && from' <= from && to <= to'
    ensures MembersWithin(ms, from', to')
  {}

  lemma {:induction false} ReachBefore(g: Grammar, sig: seq<Token>, e: nat, j: nat)
    requires Apart(sig, e) && Sound(g) && 0 < j < |sig| && WordAt(g, sig, j) != Plain
    ensures Reach(sig, j) <= sig[j].start
  {}

  predicate MemberOpensAt(g: Grammar, sig: seq<Token>, kind: UnitKind, j: nat)
    requires j < |sig|
  {
    Container(kind) && WordAt(g, sig, j).Opens? && MemberKind(WordAt(g, sig, j).kind)
  }

  /** The index that the scan of a unit reads after j: a member is passed over as a whole. */
  function NextIndex(g: Grammar, sig: seq<Token>, kind: UnitKind, j: nat): (r: nat)
    requires j < |sig|
    ensures j < r <= |sig|
  {
    if MemberOpensAt(g, sig, kind, j)
    then MemberStop(g, sig, j, EndOfKind(kind)) + if MemberClosed(g, sig, j, EndOfKind(kind)) then 1 else 0
    else j + 1
  }

  function DepthAfter(g: Grammar, sig: seq<Token>, kind: UnitKind, j: nat, depth: nat): nat
    requires j < |sig|
  {
    if WordAt(g, sig, j) == EndOfKind(kind) then (if depth == 0 then 0 else depth - 1)
    else if WordAt(g, sig, j) == Opens(kind) && Nests(kind) then depth + 1
    else depth
  }

  function MembersAt(g: Grammar, sig: seq<Token>, kind: UnitKind, j: nat): seq<Member>
    requires j < |sig|
  {
    if MemberOpensAt(g, sig, kind, j) then [MemberAt(g, sig, j, EndOfKind(kind))] else []
  }

  function SpansAt(g: Grammar, sig: seq<Token>, kind: UnitKind, j: nat): seq<Span>
    requires j < |sig|
  {
    if MemberOpensAt(g, sig, kind, j) then [Span(j, NextIndex(g, sig, kind, j) - 1)] else []
  }

  /** Where a scan stands: the next token, the members so far and the tokens that they take up. */
  datatype Scan = Scan(at: nat, members: seq<Member>, spans: seq<Span>)

  /** The scan of a unit from s on, at its END or at the end of the file. */
  function ScanFrom(g: Grammar, sig: seq<Token>, kind: UnitKind, s: Scan, depth: nat): Scan
    requires s.at <= |sig|
    decreases |sig| - s.at
  {
    if s.at == |sig| || (depth == 0 && WordAt(g, sig, s.at) == EndOfKind(kind)) then s
    else ScanFrom(g, sig, kind, ScanNext(g, sig, kind, s), DepthAfter(g, sig, kind, s.at, depth))
  }

  function ScanNext(g: Grammar, sig: seq<Token>, kind: UnitKind, s: Scan): (r: Scan)
    requires s.at < |sig|
    ensures s.at < r.at <= |sig|
  {
    Scan(NextIndex(g, sig, kind, s.at), s.members + MembersAt(g, sig, kind, s.at), s.spans + SpansAt(g, sig, kind, s.at))
  }

  /** The scan so far is right about depth and members. */
  predicate ScanOk(g: Grammar, sig: seq<Token>, kind: UnitKind, i: nat, s: Scan, depth: nat) {
    && i < s.at <= |sig|
    && Counted(g, sig, kind, s.spans, i, s.at, depth)
    && SpansMembers(g, sig, kind, s.spans, s.members, i, s.at)
  }

  lemma {:induction false} ScanOkStep(g: Grammar, sig: seq<Token>, kind: UnitKind, i: nat, s: Scan, depth: nat)
    requires ScanOk(g, sig, kind, i, s, depth) && s.at < |sig| && (WordAt(g, sig, s.at) == EndOfKind(kind) ==> depth > 0)
    ensures ScanOk(g, sig, kind, i, ScanNext(g, sig, kind, s), DepthAfter(g, sig, kind, s.at, depth))
  {
    if MemberOpensAt(g, sig, kind, s.at) {
      MemberNotEnd(kind, WordAt(g, sig, s.at));
      ScanOkMember(g, sig, kind, i, s, depth, NextIndex(g, sig, kind, s.at));
    } else {
      ScanOkToken(g, sig, kind, i, s, depth);
    }
  }

  lemma {:induction false} ScanOkMember(g: Grammar, sig: seq<Token>, kind: UnitKind, i: nat, s: Scan, depth: nat, next: nat)
    requires ScanOk(g, sig, kind, i, s, depth) && s.at < |sig| && MemberOpensAt(g, sig, kind, s.at)
    requires next == NextIndex(g, sig, kind, s.at)
    ensures ScanOk(g, sig, kind, i,
                   Scan(next, s.members + [MemberAt(g, sig, s.at, EndOfKind(kind))], s.spans + [Span(s.at, next - 1)]), depth)
  {
    var span, m := Span(s.at, next - 1), MemberAt(g, sig, s.at, EndOfKind(kind));
    MemberCounted(g, sig, kind, s.spans, i, s.at, span, depth);
    SpansMembersAppend(g, sig, kind, s.spans, s.members, i, s.at, span, m);
    assert span.last + 1 == next;
  }

  lemma {:induction false} SpansMembersAppend(g: Grammar, sig: seq<Token>, kind: UnitKind, spans: seq<Span>, ms: seq<Member>,
                                              i: nat, j: nat, s: Span, m: Member)
    requires i < j == s.first <= s.last < |sig| && SpansMembers(g, sig, kind, spans, ms, i, j) && SpansMember(g, sig, kind, s, m)
    ensures SpansMembers(g, sig, kind, spans + [s], ms + [m], i, s.last + 1)
  {
    ApartAppend(spans, i, j, s);
    AllMembersAppend(g, sig, kind, spans, ms, s, m);
    NoneLeftOutAppend(g, sig, kind, spans, i, j, s);
  }

  lemma {:induction false} ScanOkToken(g: Grammar, sig: seq<Token>, kind: UnitKind, i: nat, s: Scan, depth: nat)
    requires ScanOk(g, sig, kind, i, s, depth) && s.at < |sig| && (WordAt(g, sig, s.at) == EndOfKind(kind) ==> depth > 0)
    requires !MemberOpensAt(g, sig, kind, s.at)
    ensures ScanOk(g, sig, kind, i, ScanNext(g, sig, kind, s), DepthAfter(g, sig, kind, s.at, depth))
  {
    assert s.spans + [] == s.spans && s.members + [] == s.members;
    NotInSpan(s.spans, i, s.at);
    CountToken(g, sig, kind, s.spans, i, s.at, depth);
  }

  lemma {:induction false} NotInSpan(spans: seq<Span>, i: nat, j: nat)
    requires SpansApart(spans, i, j)
    ensures !InSpan(spans, j)
  {
  }

  /** A member keyword of a container is neither its END nor its own keyword. */
  lemma {:induction false} MemberNotEnd(kind: UnitKind, w: Word)
    requires Container(kind) && w.Opens? && MemberKind(w.kind)
    ensures w != EndOfKind(kind) && w != Opens(kind)
  {
  }

  lemma {:induction false} MemberCounted(g: Grammar, sig: seq<Token>, kind: UnitKind, spans: seq<Span>, i: nat, j: nat, s: Span, depth: nat)
    requires i < j <= |sig| && Counted(g, sig, kind, spans, i, j, depth) && s.first == j <= s.last < |sig|
    ensures Counted(g, sig, kind, spans + [s], i, s.last + 1, depth)
  {
    DepthStable(g, sig, kind, spans, s, i, j);
    OpenStable(g, sig, kind, spans, s, i, j);
    forall x | j <= x < s.last + 1 ensures InSpan(spans + [s], x) {
      assert (spans + [s])[|spans|] == s;
    }
    CountMember(g, sig, kind, spans + [s], i, j, s.last + 1, depth);
  }

  lemma {:induction false} ApartAppend(spans: seq<Span>, i: nat, j: nat, s: Span)
    requires SpansApart(spans, i, j) && i < j == s.first <= s.last
    ensures SpansApart(spans + [s], i, s.last + 1)
  {
  }

  lemma {:induction false} AllMembersAppend(g: Grammar, sig: seq<Token>, kind: UnitKind, spans: seq<Span>, ms: seq<Member>, s: Span, m: Member)
    requires AllMembers(g, sig, kind, spans, ms) && SpansMember(g, sig, kind, s, m)
    ensures AllMembers(g, sig, kind, spans + [s], ms + [m])
  {
    forall a | 0 <= a < |ms + [m]| ensures SpansMember(g, sig, kind, (spans + [s])[a], (ms + [m])[a]) {
      if a < |ms| { assert SpansMember(g, sig, kind, spans[a], ms[a]); }
    }
  }

  lemma {:induction false} NoneLeftOutAppend(g: Grammar, sig: seq<Token>, kind: UnitKind, spans: seq<Span>, i: nat, j: nat, s: Span)
    requires j <= |sig| && NoneLeftOut(g, sig, kind, spans, i, j) && s.first == j <= s.last < |sig|
    ensures NoneLeftOut(g, sig, kind, spans + [s], i, s.last + 1)
  {
    forall x | i < x < s.last + 1 && MemberOpensAt(g, sig, kind, x) ensures InSpan(spans + [s], x) {
      if x < j {
        SpanBefore(spans, s, x);
      } else {
        assert (spans + [s])[|spans|] == s;
      }
    }
  }

  /** The member that opens at j joins those before it. */
  method AddMember(g: Grammar, sig: seq<Token>, e: nat, kind: UnitKind, j: nat, from: nat, members: seq<Member>)
    returns (next: nat, members': seq<Member>)
    requires Apart(sig, e) && Sound(g) && 0 < j < |sig| && from <= Reach(sig, j) && MemberOpensAt(g, sig, kind, j)
    requires MembersWithin(members, from, Reach(sig, j))
    ensures next == NextIndex(g, sig, kind, j) && members' == members + MembersAt(g, sig, kind, j)
    ensures from <= Reach(sig, next) && MembersWithin(members', from, Reach(sig, next))
  {
    ReachBefore(g, sig, e, j);
    var m;
    m, next := TakeMember(g, sig, e, j, EndOfKind(kind));
    MemberAdded(members, from, Reach(sig, j), m, Reach(sig, next));
    members' := members + [m];
  }

  lemma {:induction false} TokenPassed(g: Grammar, sig: seq<Token>, e: nat, kind: UnitKind, j: nat, from: nat, members: seq<Member>)
    requires Apart(sig, e) && 0 < j < |sig| && from <= Reach(sig, j) && !MemberOpensAt(g, sig, kind, j)
    requires MembersWithin(members, from, Reach(sig, j))
    ensures NextIndex(g, sig, kind, j) == j + 1 && members + MembersAt(g, sig, kind, j) == members
    ensures from <= Reach(sig, j + 1) && MembersWithin(members, from, Reach(sig, j + 1))
  {
    ReachGrows(g, sig, e, j, j + 1);
    MembersWiden(members, from, Reach(sig, j), from, Reach(sig, j + 1));
  }

  /** One step of the scan at j that meets no END of depth 0: a nested opening or END, a member, or another
      token. */
  method ScanStep(g: Grammar, sig: seq<Token>, e: nat, kind: UnitKind, j: nat, depth: nat, from: nat, members: seq<Member>)
    returns (next: nat, depth': nat, members': seq<Member>)
    requires Apart(sig, e) && Sound(g) && 0 < j < |sig| && from <= Reach(sig, j)
    requires WordAt(g, sig, j) == EndOfKind(kind) ==> depth > 0
    requires MembersWithin(members, from, Reach(sig, j))
    ensures next == NextIndex(g, sig, kind, j) && depth' == DepthAfter(g, sig, kind, j, depth)
    ensures members' == members + MembersAt(g, sig, kind, j)
    ensures from <= Reach(sig, next) && MembersWithin(members', from, Reach(sig, next))
  {
    var other := WordAt(g, sig, j);
    next, depth', members' := j + 1, depth, members;
    if Container(kind) && other.Opens? && MemberKind(other.kind) {
      MemberNotEnd(kind, other);
      next, members' := AddMember(g, sig, e, kind, j, from, members);
    } else {
      TokenPassed(g, sig, e, kind, j, from, members);
      if other == EndOfKind(kind) {
        depth' := depth - 1;
      } else if other == Opens(kind) && Nests(kind) {
        depth' := depth + 1;
      }
    }
  }

  /** The END of the unit that opens at i, and its members: every member keyword up to the END is in exactly
      one of them, and the END is the first outside members that no nested unit takes. */
  predicate Scanned(g: Grammar, sig: seq<Token>, kind: UnitKind, i: nat, j: nat, members: seq<Member>)
    requires i < j <= |sig|
  {
    var s := ScanFrom(g, sig, kind, Scan(i + 1, [], []), 0);
    && s.at == j && s.members == members
    && SpansMembers(g, sig, kind, s.spans, members, i, j)
    && MatchedAt(g, sig, kind, s.spans, i, j)
  }

  /** The scan of one unit from its keyword at i to its END, or to the end of the file. */
  method ScanUnit(g: Grammar, sig: seq<Token>, e: nat, i: nat) returns (j: nat, members: seq<Member>)
    requires Apart(sig, e) && Sound(g) && i < |sig| && WordAt(g, sig, i).Opens?
    ensures i < j <= |sig| && Scanned(g, sig, WordAt(g, sig, i).kind, i, j, members)
    ensures j < |sig| ==> WordAt(g, sig, j) == EndOfKind(WordAt(g, sig, i).kind)
    ensures MembersWithin(members, sig[i].end, Reach(sig, j))
  {
    var kind := WordAt(g, sig, i).kind;
    var depth: nat := 0;
    j, members := i + 1, [];
    ghost var spans: seq<Span> := [];
    while j < |sig| && !(depth == 0 && WordAt(g, sig, j) == EndOfKind(kind))
      invariant ScanOk(g, sig, kind, i, Scan(j, members, spans), depth) && sig[i].end <= Reach(sig, j)
      invariant MembersWithin(members, sig[i].end, Reach(sig, j))
      invariant ScanFrom(g, sig, kind, Scan(j, members, spans), depth) == ScanFrom(g, sig, kind, Scan(i + 1, [], []), 0)
      decreases |sig| - j
    {
      ScanOkStep(g, sig, kind, i, Scan(j, members, spans), depth);
      spans := spans + SpansAt(g, sig, kind, j);
      j, depth, members := ScanStep(g, sig, e, kind, j, depth, sig[i].end, members);
    }
  }

  // ----- the whole file

  /** A unit inside the first e characters, with its members inside it. */
  predicate UnitFits(u: Unit, e: nat) {
    u.start < u.end <= e && MembersWithin(u.members, u.start, u.end)
  }

  /** The units lie in order and apart in the first e characters. */
  predicate UnitsWithin(us: seq<Unit>, e: nat) {
    && (forall a :: 0 <= a < |us| ==> UnitFits(us[a], e))
    && (forall a, b :: 0 <= a < b < |us| ==> us[a].end <= us[b].start)
  }

  lemma {:induction false} UnitAdded(us: seq<Unit>, e: nat, u: Unit, later: nat)
    requires UnitsWithin(us, e) && e <= u.start && UnitFits(u, later)
    ensures UnitsWithin(us + [u], later)
  {
    forall a | 0 <= a < |us|
      ensures UnitFits((us + [u])[a], later)
    {
      assert UnitFits(us[a], e);
    }
  }

  // ----- marker comments

  datatype Marker = Marker(start: nat, value: Source)

  function Markers(g: Grammar, tokens: seq<Token>, n: nat): seq<Marker>
    requires n <= |tokens|
  {
    if n == 0 then []
    else
      var k := tokens[n - 1];
      Markers(g, tokens, n - 1)
      + if k.kind == Comment && g.marker(k.text).Given? then [Marker(k.start, g.marker(k.text).value)] else []
  }

  /** The last of the first n markers that starts before pos. */
  function LastBefore(ms: seq<Marker>, n: nat, pos: nat): Maybe<Source>
    requires n <= |ms|
  {
    if n == 0 then Absent else if ms[n - 1].start < pos then Given(ms[n - 1].value) else LastBefore(ms, n - 1, pos)
  }

  predicate IsMarkerAt(ms: seq<Marker>, pos: nat, marker: Maybe<Source>) {
    marker == LastBefore(ms, |ms|, pos)
  }

  predicate Ordered(ms: seq<Marker>) {
    forall a, b :: 0 <= a < b < |ms| ==> ms[a].start < ms[b].start
  }

  lemma {:induction false} MarkersOrdered(g: Grammar, tokens: seq<Token>, n: nat, e: nat)
    requires n <= |tokens| && Apart(tokens, e)
    ensures Ordered(Markers(g, tokens, n))
    ensures forall a :: 0 <= a < |Markers(g, tokens, n)| ==> Markers(g, tokens, n)[a].start < EndOf(tokens, n)
  {
    if n > 0 {
      MarkersOrdered(g, tokens, n - 1, e);
      assert EndOf(tokens, n - 1) <= tokens[n - 1].start;
    }
  }

  predicate StartBefore(ms: seq<Marker>, k: nat, pos: nat) {
    k <= |ms| && forall a :: 0 <= a < k ==> ms[a].start < pos
  }

  /** The markers before pos have been passed, and no other. */
  predicate Passed(ms: seq<Marker>, k: nat, pos: nat) {
    && StartBefore(ms, k, pos)
    && (forall a :: k <= a < |ms| ==> pos <= ms[a].start)
  }

  lemma {:induction false} PassedIsLast(ms: seq<Marker>, k: nat, n: nat, pos: nat)
    requires Passed(ms, k, pos) && k <= n <= |ms|
    ensures LastBefore(ms, n, pos) == if k == 0 then Absent else Given(ms[k - 1].value)
  {
    if n > k { PassedIsLast(ms, k, n - 1, pos); }
  }

  method PassMarkers(ms: seq<Marker>, from: nat, pos: nat) returns (k: nat)
    requires Ordered(ms) && StartBefore(ms, from, pos)
    ensures from <= k && Passed(ms, k, pos)
  {
    k := from;
    while k < |ms| && ms[k].start < pos
      invariant from <= k && StartBefore(ms, k, pos)
    {
      k := k + 1;
    }
  }

  // ----- namespaces

  /** The name parts from j on, after `parts`, and the index behind them. */
  function NameFrom(sig: seq<Token>, j: nat, parts: seq<Source>): (r: (seq<Source>, nat))
    requires j <= |sig|
    ensures j <= r.1 <= |sig|
    decreases |sig| - j
  {
    if j == |sig| || !IsWord(sig[j]) then (parts, j)
    else if j + 1 < |sig| && sig[j + 1].text == "." then NameFrom(sig, j + 2, parts + [sig[j].text])
    else (parts + [sig[j].text], j + 1)
  }

  /** The name after a NAMESPACE keyword at i, and the index behind it. */
  method NamespaceName(sig: seq<Token>, i: nat) returns (parts: seq<Source>, j: nat)
    requires i < |sig|
    ensures (parts, j) == NameFrom(sig, i + 1, [])
  {
    j, parts := i + 1, [];
    while j < |sig| && IsWord(sig[j])
      invariant i < j <= |sig| && NameFrom(sig, j, parts) == NameFrom(sig, i + 1, [])
    {
      parts := parts + [sig[j].text];
      j := j + 1;
      if j == |sig| || sig[j].text != "." {
        return;
      }
      j := j + 1;
    }
  }

  /** The first token of a unit, and the token of its END or the token count. */
  datatype Span = Span(first: nat, last: nat)

  predicate InSpan(spans: seq<Span>, x: nat) {
    exists a :: 0 <= a < |spans| && spans[a].first <= x <= spans[a].last
  }

  /** The names of the open namespaces, outermost first, and the end of the last NAMESPACE name. */
  datatype Outer = Outer(open: seq<seq<Source>>, until: nat)

  /** A token outside units and names may open or close a namespace. */
  function OuterStep(g: Grammar, sig: seq<Token>, spans: seq<Span>, o: Outer, x: nat): Outer
    requires x < |sig|
  {
    if x < o.until || InSpan(spans, x) then o
    else
      match WordAt(g, sig, x)
      case Namespace => Outer(o.open + [NameFrom(sig, x + 1, []).0], NameFrom(sig, x + 1, []).1)
      case EndNamespace => if o.open == [] then o else o.(open := o.open[..|o.open| - 1])
      case _ => o
  }

  /** What is open before token i, the units taking up `spans`. */
  function OuterAt(g: Grammar, sig: seq<Token>, spans: seq<Span>, i: nat): Outer
    requires i <= |sig|
  {
    if i == 0 then Outer([], 0) else OuterStep(g, sig, spans, OuterAt(g, sig, spans, i - 1), i - 1)
  }

  /** The token is part of the name of a namespace. */
  predicate NamePart(g: Grammar, sig: seq<Token>, spans: seq<Span>, x: nat)
    requires x < |sig|
  {
    x < OuterAt(g, sig, spans, x).until
  }

  lemma {:induction false} SpanBefore(spans: seq<Span>, s: Span, x: nat)
    requires x < s.first
    ensures InSpan(spans + [s], x) <==> InSpan(spans, x)
  {
    if a :| 0 <= a < |spans| && spans[a].first <= x <= spans[a].last {
      assert (spans + [s])[a] == spans[a];
    }
  }

  /** A later unit does not change what is open before it. */
  lemma {:induction false} OuterStable(g: Grammar, sig: seq<Token>, spans: seq<Span>, s: Span, i: nat)
    requires i <= s.first && i <= |sig|
    ensures OuterAt(g, sig, spans + [s], i) == OuterAt(g, sig, spans, i)
  {
    if i > 0 {
      OuterStable(g, sig, spans, s, i - 1);
      SpanBefore(spans, s, i - 1);
    }
  }

  /** Nothing opens or closes inside a unit, or inside a name. */
  lemma {:induction false} OuterThrough(g: Grammar, sig: seq<Token>, spans: seq<Span>, i: nat, j: nat)
    requires i <= j <= |sig|
    requires j <= OuterAt(g, sig, spans, i).until || forall x :: i <= x < j ==> InSpan(spans, x)
    ensures OuterAt(g, sig, spans, j) == OuterAt(g, sig, spans, i)
  {
    if i < j { OuterThrough(g, sig, spans, i, j - 1); }
  }

  // ----- the loop over the file

  function After(sig: seq<Token>, s: Span): nat {
    if s.last < |sig| then s.last + 1 else |sig|
  }

  /** The unit is what its span says: it runs from its keyword through its END (and a semicolon), or to the
      last token when it has none. */
  predicate Draws(g: Grammar, sig: seq<Token>, ms: seq<Marker>, s: Span, u: Unit) {
    && s.first < s.last <= |sig|
    && WordAt(g, sig, s.first) == Opens(u.kind)
    && Placed(g, sig, ms, s, u)
    && Scanned(g, sig, u.kind, s.first, s.last, u.members)
  }

  /** Its name, places and marker. */
  predicate Placed(g: Grammar, sig: seq<Token>, ms: seq<Marker>, s: Span, u: Unit)
    requires s.first < s.last <= |sig|
  {
    && u.start == sig[s.first].start
    && u.line == sig[s.first].line
    && u.closed == (s.last < |sig|)
    && (u.closed ==> WordAt(g, sig, s.last) == EndOfKind(u.kind))
    && u.end == Reach(sig, After(sig, s))
    && u.endLine == sig[if u.closed then s.last else s.last - 1].line
    && u.name == (if u.kind == VarGlobal then [] else g.declared(sig, s.first))
    && u.marker == LastBefore(ms, |ms|, u.start)
  }

  /** Every token before i that opens a unit is in a span, or is part of the name of a namespace. */
  predicate Covered(g: Grammar, sig: seq<Token>, spans: seq<Span>, i: nat)
    requires i <= |sig|
  {
    forall x :: 0 <= x < i && WordAt(g, sig, x).Opens? ==> NamePart(g, sig, spans, x) || InSpan(spans, x)
  }

  /** Each unit is in the namespaces that are open before its keyword. */
  predicate AllPlaced(g: Grammar, sig: seq<Token>, us: seq<Unit>, spans: seq<Span>) {
    && |us| == |spans|
    && forall a :: 0 <= a < |us| ==> spans[a].first < |sig| && us[a].namespace == OuterAt(g, sig, spans, spans[a].first).open
  }

  predicate AllDrawn(g: Grammar, sig: seq<Token>, ms: seq<Marker>, us: seq<Unit>, spans: seq<Span>) {
    |us| == |spans| && forall a :: 0 <= a < |us| ==> Draws(g, sig, ms, spans[a], us[a])
  }

  function ReachOrZero(sig: seq<Token>, i: nat): nat
    requires i <= |sig|
  {
    if i == 0 then 0 else Reach(sig, i)
  }

  /** The units so far, once the tokens before i have been read. */
  predicate SplitTo(g: Grammar, sig: seq<Token>, ms: seq<Marker>, us: seq<Unit>, spans: seq<Span>, i: nat) {
    && i <= |sig|
    && AllDrawn(g, sig, ms, us, spans)
    && AllPlaced(g, sig, us, spans)
    && SpansBefore(sig, spans, i)
    && UnitsWithin(us, ReachOrZero(sig, i))
    && Covered(g, sig, spans, i)
  }

  /** The units so far end before token i, or run to the end of the file. */
  predicate SpansBefore(sig: seq<Token>, spans: seq<Span>, i: nat) {
    forall a :: 0 <= a < |spans| ==> spans[a].first < i && (i < |sig| ==> spans[a].last < i)
  }

  /** The loop's own stack is what is open before token i. */
  predicate Tracked(g: Grammar, sig: seq<Token>, spans: seq<Span>, i: nat, namespaces: seq<seq<Source>>) {
    i <= |sig| && OuterAt(g, sig, spans, i).open == namespaces && OuterAt(g, sig, spans, i).until <= i
  }

  /** Tokens without a unit keyword of their own are passed over. */
  lemma {:induction false} PassOver(g: Grammar, sig: seq<Token>, e: nat, ms: seq<Marker>, us: seq<Unit>, spans: seq<Span>, i: nat, j: nat)
    requires Apart(sig, e) && SplitTo(g, sig, ms, us, spans, i) && i < j <= |sig|
    requires forall x :: i <= x < j && WordAt(g, sig, x).Opens? ==> NamePart(g, sig, spans, x)
    ensures SplitTo(g, sig, ms, us, spans, j)
  {
    if i > 0 { ReachGrows(g, sig, e, i, j); }
    WithinLarger(us, ReachOrZero(sig, i), Reach(sig, j));
  }

  lemma {:induction false} CoverGrows(g: Grammar, sig: seq<Token>, spans: seq<Span>, s: Span, next: nat)
    requires s.first <= next <= |sig| && Covered(g, sig, spans, s.first) && next <= s.last + 1
    ensures Covered(g, sig, spans + [s], next)
  {
    forall x | 0 <= x < next && WordAt(g, sig, x).Opens?
      ensures NamePart(g, sig, spans + [s], x) || InSpan(spans + [s], x)
    {
      if x >= s.first {
        assert (spans + [s])[|spans|] == s;
      } else {
        OuterStable(g, sig, spans, s, x);
        SpanBefore(spans, s, x);
      }
    }
  }

  lemma {:induction false} PlacedAdded(g: Grammar, sig: seq<Token>, us: seq<Unit>, spans: seq<Span>, s: Span, u: Unit)
    requires AllPlaced(g, sig, us, spans) && s.first < |sig| && u.namespace == OuterAt(g, sig, spans, s.first).open
    requires forall a :: 0 <= a < |spans| ==> spans[a].first < s.first
    ensures AllPlaced(g, sig, us + [u], spans + [s])
  {
    forall a | 0 <= a < |us + [u]|
      ensures (us + [u])[a].namespace == OuterAt(g, sig, spans + [s], (spans + [s])[a].first).open
    {
      OuterStable(g, sig, spans, s, (spans + [s])[a].first);
    }
  }

  lemma {:induction false} DrawnAdded(g: Grammar, sig: seq<Token>, ms: seq<Marker>, us: seq<Unit>, spans: seq<Span>, s: Span, u: Unit)
    requires AllDrawn(g, sig, ms, us, spans) && Draws(g, sig, ms, s, u)
    ensures AllDrawn(g, sig, ms, us + [u], spans + [s])
  {}

  lemma {:induction false} WithinTaken(g: Grammar, sig: seq<Token>, e: nat, us: seq<Unit>, i: nat, next: nat, u: Unit)
    requires Apart(sig, e) && Sound(g) && i < next <= |sig| && UnitsWithin(us, ReachOrZero(sig, i))
    requires WordAt(g, sig, i) != Plain && u.start == sig[i].start && u.end == Reach(sig, next)
    requires MembersWithin(u.members, u.start, u.end)
    ensures UnitsWithin(us + [u], Reach(sig, next))
  {
    if i > 0 { ReachBefore(g, sig, e, i); }
    ReachGrows(g, sig, e, i + 1, next);
    UnitAdded(us, ReachOrZero(sig, i), u, Reach(sig, next));
  }

  lemma {:induction false} UnitTaken(g: Grammar, sig: seq<Token>, e: nat, ms: seq<Marker>, us: seq<Unit>, spans: seq<Span>, s: Span, u: Unit)
    requires Apart(sig, e) && Sound(g) && SplitTo(g, sig, ms, us, spans, s.first) && Draws(g, sig, ms, s, u)
    requires Tracked(g, sig, spans, s.first, u.namespace) && MembersWithin(u.members, u.start, u.end)
    ensures SplitTo(g, sig, ms, us + [u], spans + [s], After(sig, s))
    ensures Tracked(g, sig, spans + [s], After(sig, s), u.namespace)
  {
    WithinTaken(g, sig, e, us, s.first, After(sig, s), u);
    DrawnAdded(g, sig, ms, us, spans, s, u);
    PlacedAdded(g, sig, us, spans, s, u);
    CoverGrows(g, sig, spans, s, After(sig, s));
    OuterPastUnit(g, sig, spans, s);
  }

  lemma {:induction false} OuterPastUnit(g: Grammar, sig: seq<Token>, spans: seq<Span>, s: Span)
    requires s.first < s.last <= |sig|
    ensures OuterAt(g, sig, spans + [s], After(sig, s)) == OuterAt(g, sig, spans, s.first)
  {
    OuterStable(g, sig, spans, s, s.first);
    forall x | s.first <= x < After(sig, s) ensures InSpan(spans + [s], x) {
      assert (spans + [s])[|spans|] == s;
    }
    OuterThrough(g, sig, spans + [s], s.first, After(sig, s));
  }

  /** The name of a namespace opened at i is passed over. */
  lemma {:induction false} NamePassed(g: Grammar, sig: seq<Token>, spans: seq<Span>, i: nat, namespaces: seq<seq<Source>>)
    requires Tracked(g, sig, spans, i, namespaces) && i < |sig| && !InSpan(spans, i) && WordAt(g, sig, i) == Namespace
    ensures var (parts, j) := NameFrom(sig, i + 1, []);
            && Tracked(g, sig, spans, j, namespaces + [parts])
            && forall x :: i < x < j ==> NamePart(g, sig, spans, x)
  {
    var (parts, j) := NameFrom(sig, i + 1, []);
    assert OuterAt(g, sig, spans, i + 1) == Outer(namespaces + [parts], j);
    forall x | i < x <= j ensures OuterAt(g, sig, spans, x) == OuterAt(g, sig, spans, i + 1) {
      OuterThrough(g, sig, spans, i + 1, x);
    }
  }

  /** The members of a unit lie inside it. */
  lemma {:induction false} UnitMembers(g: Grammar, sig: seq<Token>, e: nat, i: nat, j: nat, members: seq<Member>)
    requires Apart(sig, e) && i < j <= |sig| && MembersWithin(members, sig[i].end, Reach(sig, j))
    ensures MembersWithin(members, sig[i].start, Reach(sig, After(sig, Span(i, j))))
  {
    ReachGrows(g, sig, e, j, After(sig, Span(i, j)));
    MembersWiden(members, sig[i].end, Reach(sig, j), sig[i].start, Reach(sig, After(sig, Span(i, j))));
  }

  method TakeUnit(g: Grammar, sig: seq<Token>, e: nat, ms: seq<Marker>, i: nat, namespaces: seq<seq<Source>>, marker: Maybe<Source>)
    returns (u: Unit, j: nat)
    requires Apart(sig, e) && Sound(g) && i < |sig| && WordAt(g, sig, i).Opens?
    requires IsMarkerAt(ms, sig[i].start, marker)
    ensures Draws(g, sig, ms, Span(i, j), u) && MembersWithin(u.members, u.start, u.end)
    ensures u.namespace == namespaces
  {
    var members;
    j, members := ScanUnit(g, sig, e, i);
    UnitMembers(g, sig, e, i, j, members);
    u := UnitOf(g, sig, Span(i, j), namespaces, marker, members);
    UnitOfDraws(g, sig, ms, Span(i, j), namespaces, members);
  }

  /** The unit of a span: the fields that are known at its keyword, and those that its end fills in. */
  function UnitOf(g: Grammar, sig: seq<Token>, s: Span, namespaces: seq<seq<Source>>, marker: Maybe<Source>, members: seq<Member>): Unit
    requires s.first < s.last <= |sig| && WordAt(g, sig, s.first).Opens?
  {
    var kind, token, closed := WordAt(g, sig, s.first).kind, sig[s.first], s.last < |sig|;
    Unit(kind, if kind == VarGlobal then [] else g.declared(sig, s.first), token.start,
         if closed then SpanEnd(sig, s.last) else sig[|sig| - 1].end, token.line,
         sig[if closed then s.last else |sig| - 1].line, namespaces, marker, closed, members)
  }

  lemma {:induction false} UnitOfDraws(g: Grammar, sig: seq<Token>, ms: seq<Marker>, s: Span, namespaces: seq<seq<Source>>, members: seq<Member>)
    requires s.first < s.last <= |sig| && WordAt(g, sig, s.first).Opens?
    requires s.last < |sig| ==> WordAt(g, sig, s.last) == EndOfKind(WordAt(g, sig, s.first).kind)
    requires Scanned(g, sig, WordAt(g, sig, s.first).kind, s.first, s.last, members)
    ensures Draws(g, sig, ms, s, UnitOf(g, sig, s, namespaces, LastBefore(ms, |ms|, sig[s.first].start), members))
  {
    UnitOfPlaced(g, sig, ms, s, namespaces, members);
  }

  lemma {:induction false} UnitOfPlaced(g: Grammar, sig: seq<Token>, ms: seq<Marker>, s: Span, namespaces: seq<seq<Source>>, members: seq<Member>)
    requires s.first < s.last <= |sig| && WordAt(g, sig, s.first).Opens?
    requires s.last < |sig| ==> WordAt(g, sig, s.last) == EndOfKind(WordAt(g, sig, s.first).kind)
    ensures Placed(g, sig, ms, s, UnitOf(g, sig, s, namespaces, LastBefore(ms, |ms|, sig[s.first].start), members))
  {
  }

  method AddUnit(g: Grammar, sig: seq<Token>, e: nat, ms: seq<Marker>, i: nat, marker: Maybe<Source>,
                 namespaces: seq<seq<Source>>, us: seq<Unit>, ghost spans: seq<Span>)
    returns (next: nat, us': seq<Unit>, ghost spans': seq<Span>)
    requires Apart(sig, e) && Sound(g) && i < |sig| && WordAt(g, sig, i).Opens? && SplitTo(g, sig, ms, us, spans, i)
    requires Tracked(g, sig, spans, i, namespaces) && IsMarkerAt(ms, sig[i].start, marker)
    ensures i < next <= |sig| && SplitTo(g, sig, ms, us', spans', next) && Tracked(g, sig, spans', next, namespaces)
  {
    var u, j := TakeUnit(g, sig, e, ms, i, namespaces, marker);
    UnitTaken(g, sig, e, ms, us, spans, Span(i, j), u);
    next, us', spans' := After(sig, Span(i, j)), us + [u], spans + [Span(i, j)];
  }

  /** A word that opens no unit: it may open or close a namespace. */
  method PassWord(g: Grammar, sig: seq<Token>, i: nat, namespaces: seq<seq<Source>>, ghost spans: seq<Span>)
    returns (next: nat, namespaces': seq<seq<Source>>)
    requires i < |sig| && !WordAt(g, sig, i).Opens? && !InSpan(spans, i) && Tracked(g, sig, spans, i, namespaces)
    ensures i < next <= |sig| && Tracked(g, sig, spans, next, namespaces')
    ensures forall x :: i < x < next ==> NamePart(g, sig, spans, x)
  {
    next, namespaces' := i + 1, namespaces;
    var word := WordAt(g, sig, i);
    if word == Namespace {
      NamePassed(g, sig, spans, i, namespaces);
      var parts;
      parts, next := NamespaceName(sig, i);
      namespaces' := namespaces + [parts];
    } else if word == EndNamespace && namespaces != [] {
      namespaces' := namespaces[..|namespaces| - 1];
    }
  }

  /** One round of the loop: the token at i with the marker before it. */
  method SplitStep(g: Grammar, sig: seq<Token>, e: nat, ms: seq<Marker>, i: nat, marker: Maybe<Source>,
                   namespaces: seq<seq<Source>>, us: seq<Unit>, ghost spans: seq<Span>)
    returns (next: nat, namespaces': seq<seq<Source>>, us': seq<Unit>, ghost spans': seq<Span>)
    requires Apart(sig, e) && Sound(g) && i < |sig| && SplitTo(g, sig, ms, us, spans, i)
    requires Tracked(g, sig, spans, i, namespaces) && IsMarkerAt(ms, sig[i].start, marker)
    ensures i < next <= |sig| && SplitTo(g, sig, ms, us', spans', next) && Tracked(g, sig, spans', next, namespaces')
  {
    next, namespaces', us', spans' := i + 1, namespaces, us, spans;
    if WordAt(g, sig, i).Opens? {
      next, us', spans' := AddUnit(g, sig, e, ms, i, marker, namespaces, us, spans);
    } else {
      next, namespaces' := PassWord(g, sig, i, namespaces, spans);
      PassOver(g, sig, e, ms, us, spans, i, next);
    }
  }

  method SplitTokens(g: Grammar, sig: seq<Token>, e: nat, ms: seq<Marker>) returns (us: seq<Unit>, ghost spans: seq<Span>)
    requires Apart(sig, e) && Sound(g) && Ordered(ms)
    ensures SplitTo(g, sig, ms, us, spans, |sig|)
    ensures UnitsWithin(us, ReachOrZero(sig, |sig|))
  {
    us, spans := [], [];
    var namespaces := [];
    var i, k := 0, 0;
    while i < |sig|
      invariant i <= |sig| && SplitTo(g, sig, ms, us, spans, i) && Tracked(g, sig, spans, i, namespaces)
      invariant i < |sig| ==> StartBefore(ms, k, sig[i].start)
      decreases |sig| - i
    {
      k := PassMarkers(ms, k, sig[i].start);
      PassedIsLast(ms, k, |ms|, sig[i].start);
      var marker := if k == 0 then Absent else Given(ms[k - 1].value);
      i, namespaces, us, spans := SplitStep(g, sig, e, ms, i, marker, namespaces, us, spans);
    }
  }

  /** `split_units`: the units of a source lie in order and apart inside it, with their members in order and
      apart inside them; and every unit keyword outside a namespace name belongs to one of them. */
  method SplitUnits(t: Tables, g: Grammar, src: Source) returns (us: seq<Unit>, sig: seq<Token>, ghost spans: seq<Span>)
    requires Bounded(t, src) && Sound(g)
    ensures exists tokens :: Covers(t, src, tokens) && sig == Significant(tokens, |tokens|)
                             && SplitTo(g, sig, Markers(g, tokens, |tokens|), us, spans, |sig|)
    ensures UnitsWithin(us, |src|)
  {
    var tokens := TokenizeLossless(t, src);
    ScannedApart(t, src, tokens);
    SignificantApart(tokens, |tokens|, |src|);
    MarkersOrdered(g, tokens, |tokens|, |src|);
    sig := Significant(tokens, |tokens|);
    us, spans := SplitTokens(g, sig, |src|, Markers(g, tokens, |tokens|));
    if sig != [] { ReachGrows(g, sig, |src|, |sig|, |sig|); }
    WithinLarger(us, ReachOrZero(sig, |sig|), |src|);
  }

  lemma {:induction false} WithinLarger(us: seq<Unit>, e: nat, later: nat)
    requires UnitsWithin(us, e) && e <= later
    ensures UnitsWithin(us, later)
  {
    forall a | 0 <= a < |us|
      ensures UnitFits(us[a], later)
    {
      assert UnitFits(us[a], e);
    }
  }
}
