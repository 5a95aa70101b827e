/** The keyword spellings of compiler/intake/structure.py. */
module Keywords {
  import opened Wrappers
  import opened Lexer
  import opened UnitSplit

  function Uppercase(s: Source): Source {
    seq(|s|, i requires 0 <= i < |s| => Upper(s[i]))
  }

  const BLOCK_NAME: Source := "FUNCTIONBLOCK"
  const END: Source := ['E', 'N', 'D']
  const END_UNDERSCORE: Source := ['E', 'N', 'D', '_']

  /** The spellings that are listed one by one. */
  function Alias(w: Source): Source {
    if w == BLOCK_NAME then "FUNCTION_BLOCK"
    else if w == END_UNDERSCORE + BLOCK_NAME || w == END + BLOCK_NAME then END_UNDERSCORE + "FUNCTION_BLOCK"
    else if w == "PROPERTYGET" then "PROPERTY_GET"
    else if w == "PROPERTYSET" then "PROPERTY_SET"
    else w
  }

  predicate CompactEnd(w: Source) {
    |w| > 3 && w[0] == 'E' && w[1] == 'N' && w[2] == 'D' && w[3] != '_'
  }

  function CanonicalKeyword(word: Source): Source {
    var w := Uppercase(word);
    if Alias(w) != w then Alias(w)
    else if CompactEnd(w) then END_UNDERSCORE + w[3..]
    else w
  }

  predicate IsUpper(w: Source) {
    forall i :: 0 <= i < |w| ==> Upper(w[i]) == w[i]
  }

  lemma {:induction false} UppercaseKeeps(w: Source)
    requires IsUpper(w)
    ensures Uppercase(w) == w
  {}

  lemma {:induction false} UppercaseIsUpper(w: Source)
    ensures IsUpper(Uppercase(w))
  {}

  lemma {:induction false} CompactOfBlock(w: Source)
    requires CompactEnd(w) && END_UNDERSCORE + w[3..] == END_UNDERSCORE + BLOCK_NAME
    ensures w == END + BLOCK_NAME
  {
    assert (END_UNDERSCORE + w[3..])[4..] == w[3..];
    assert (END_UNDERSCORE + BLOCK_NAME)[4..] == BLOCK_NAME;
    assert w == w[..3] + w[3..] && w[..3] == END;
  }

  /** The only spelling with END_ that is an alias comes from a compact one that is an alias too. */
  lemma {:induction false} AliasOfEnd(w: Source)
    requires CompactEnd(w) && Alias(w) == w
    ensures Alias(END_UNDERSCORE + w[3..]) == END_UNDERSCORE + w[3..]
  {
    var v := END_UNDERSCORE + w[3..];
    assert v[0] == 'E' && v[3] == '_' && (END + BLOCK_NAME)[3] == BLOCK_NAME[0] == 'F';
    if v == END_UNDERSCORE + BLOCK_NAME {
      CompactOfBlock(w);
    }
  }

  predicate Settled(v: Source) {
    Alias(v) == v && !CompactEnd(v) && IsUpper(v)
  }

  lemma {:induction false} BlockSettled()
    ensures Settled("FUNCTION_BLOCK")
  {
    assert "FUNCTION_BLOCK"[8] == '_' && BLOCK_NAME[8] == 'B';
  }

  lemma {:induction false} EndBlockSettled()
    ensures Settled(END_UNDERSCORE + "FUNCTION_BLOCK")
  {
    var v := END_UNDERSCORE + "FUNCTION_BLOCK";
    assert v[0] == 'E' && v[3] == '_' && v[12] == '_';
    assert (END_UNDERSCORE + BLOCK_NAME)[12] == BLOCK_NAME[8] == 'B';
  }

  lemma {:induction false} PropertiesSettled()
    ensures Settled("PROPERTY_GET") && Settled("PROPERTY_SET")
  {
    assert "PROPERTY_GET"[0] == "PROPERTY_SET"[0] == 'P' && BLOCK_NAME[0] == 'F';
  }

  lemma {:induction false} AliasSettled(w: Source)
    requires Alias(w) != w
    ensures Settled(Alias(w))
  {
    BlockSettled();
    EndBlockSettled();
    PropertiesSettled();
  }

  /** A canonical spelling is its own canonical spelling. */
  lemma {:induction false} CanonicalIdempotent(word: Source)
    ensures CanonicalKeyword(CanonicalKeyword(word)) == CanonicalKeyword(word)
  {
    var w := Uppercase(word);
    UppercaseIsUpper(word);
    if Alias(w) != w {
      AliasSettled(w);
    } else if CompactEnd(w) {
      AliasOfEnd(w);
    }
    UppercaseKeeps(CanonicalKeyword(word));
  }

  // ----- the words of the splitter

  function OpeningWord(w: Source): Maybe<UnitKind> {
    if w == "FUNCTION" then Given(FunctionUnit)
    else if w == "FUNCTION_BLOCK" then Given(FunctionBlock)
    else if w == "PROGRAM" then Given(Program)
    else if w == "CLASS" then Given(ClassUnit)
    else if w == "INTERFACE" then Given(Interface)
    else if w == "TYPE" then Given(TypeUnit)
    else if w == "CONFIGURATION" then Given(Configuration)
    else if w == "DATA_BLOCK" then Given(DataBlock)
    else if w == "ORGANIZATION_BLOCK" then Given(OrganizationBlock)
    else if w == "VAR_GLOBAL" then Given(VarGlobal)
    else if w == "ACTIONS" then Given(Actions)
    else if w == "METHOD" then Given(MethodUnit)
    else if w == "PROPERTY" then Given(PropertyUnit)
    else if w == "ACTION" then Given(Action)
    else if w == "PROPERTY_GET" then Given(PropertyGet)
    else if w == "PROPERTY_SET" then Given(PropertySet)
    else Absent
  }

  /** The END keyword of a kind is END_ and its keyword, except END_VAR and END_PROPERTY. */
  function ClosingWord(w: Source): Maybe<UnitKind> {
    if |w| < 4 || w[..4] != END_UNDERSCORE then Absent
    else if w[4..] == "VAR" then Given(VarGlobal)
    else
      match OpeningWord(w[4..])
      case Given(VarGlobal) => Absent
      case Given(PropertyGet) => Absent
      case Given(PropertySet) => Absent
      case k => k
  }

  function WordOf(text: Source): Word {
    var w := CanonicalKeyword(text);
    if OpeningWord(w).Given? then Opens(OpeningWord(w).value)
    else if ClosingWord(w).Given? then Closes(ClosingWord(w).value)
    else if w == "NAMESPACE" then Namespace
    else if w == "END_NAMESPACE" then EndNamespace
    else Plain
  }

  /** These keywords meet the demand of `SplitUnits`. */
  lemma {:induction false} KeywordsSound(declared: (seq<Token>, nat) -> Source, marker: Source -> Maybe<Source>)
    ensures Sound(Grammar(WordOf, declared, marker))
  {
    assert CanonicalKeyword(";") == ";";
  }

  // ----- the table of keywords and the spellings of each

  /** UNIT_END: the keyword of a kind and its END keyword. */
  function KeywordOf(k: UnitKind): Source {
    match k
    case FunctionUnit => "FUNCTION"
    case FunctionBlock => "FUNCTION_BLOCK"
    case Program => "PROGRAM"
    case ClassUnit => "CLASS"
    case Interface => "INTERFACE"
    case TypeUnit => "TYPE"
    case Configuration => "CONFIGURATION"
    case DataBlock => "DATA_BLOCK"
    case OrganizationBlock => "ORGANIZATION_BLOCK"
    case VarGlobal => "VAR_GLOBAL"
    case Actions => "ACTIONS"
    case MethodUnit => "METHOD"
    case PropertyUnit => "PROPERTY"
    case Action => "ACTION"
    case PropertyGet => "PROPERTY_GET"
    case PropertySet => "PROPERTY_SET"
  }

  /** The END keyword without its END_. */
  function EndPartOf(k: UnitKind): Source {
    match k
    case VarGlobal => "VAR"
    case PropertyGet => "PROPERTY"
    case PropertySet => "PROPERTY"
    case _ => KeywordOf(k)
  }

  lemma {:induction false} KeywordOpens(k: UnitKind)
    ensures OpeningWord(KeywordOf(k)) == Given(k)
  {
    assert "FUNCTION"[0] == "FUNCTION_BLOCK"[0] == 'F' && "PROGRAM"[0] == "PROPERTY"[0] == 'P' && "CLASS"[0] == "CONFIGURATION"[0] == 'C';
    assert "INTERFACE"[0] == 'I' && "TYPE"[0] == 'T' && "DATA_BLOCK"[0] == 'D' && "ORGANIZATION_BLOCK"[0] == 'O' && "VAR_GLOBAL"[0] == 'V';
    assert "ACTIONS"[0] == "ACTION"[0] == 'A' && "METHOD"[0] == 'M' && "PROPERTY_GET"[9] == 'G' && "PROPERTY_SET"[9] == 'S';
  }

  lemma {:induction false} OpenedIs(w: Source)
    requires OpeningWord(w).Given?
    ensures w == KeywordOf(OpeningWord(w).value)
  {
  }

  lemma {:induction false} OpensOne(w: Source, k: UnitKind)
    ensures OpeningWord(w) == Given(k) <==> w == KeywordOf(k)
  {
    if w == KeywordOf(k) {
      KeywordOpens(k);
    } else if OpeningWord(w).Given? {
      OpenedIs(w);
    }
  }

  lemma {:induction false} OpeningStart(w: Source)
    requires OpeningWord(w).Given?
    ensures w != [] && w[0] != 'E' && w[0] != 'N'
  {
    var k := OpeningWord(w).value;
    OpensOne(w, k);
    match k
    case _ =>
  }

  /** The kind that an END keyword names: both property accessors end with that of a property. */
  function CloserOf(k: UnitKind): UnitKind {
    if k == PropertyGet || k == PropertySet then PropertyUnit else k
  }

  lemma {:induction false} EndPartIs(k: UnitKind)
    ensures EndOfKind(k) == Closes(CloserOf(k)) && EndPartOf(k) == if k == VarGlobal then "VAR" else KeywordOf(CloserOf(k))
  {
  }

  lemma {:induction false} ClosesOne(w: Source, k: UnitKind)
    ensures ClosingWord(w) == Given(CloserOf(k)) <==> w == END_UNDERSCORE + EndPartOf(k)
  {
    var part := EndPartOf(k);
    assert (END_UNDERSCORE + part)[..4] == END_UNDERSCORE && (END_UNDERSCORE + part)[4..] == part;
    if |w| >= 4 && w[..4] == END_UNDERSCORE {
      assert w == END_UNDERSCORE + w[4..];
      PartCloses(w, w[4..], k);
    }
  }

  /** Behind END_ the word names the kind. */
  lemma {:induction false} PartCloses(w: Source, x: Source, k: UnitKind)
    requires |w| >= 4 && w[..4] == END_UNDERSCORE && w[4..] == x
    ensures ClosingWord(w) == Given(CloserOf(k)) <==> x == EndPartOf(k)
  {
    EndPartIs(k);
    OpensOne(x, CloserOf(k));
    if x == "VAR" { VarOpensNothing(CloserOf(k)); }
  }

  lemma {:induction false} VarOpensNothing(k: UnitKind)
    ensures KeywordOf(k) != "VAR"
  {
    match k
    case _ => assert |KeywordOf(k)| != 3;
  }

  // ----- spellings

  /** The spellings that open a kind, in upper case: its keyword, with or without the underscore where that is listed. */
  predicate OpensAs(u: Source, k: UnitKind) {
    || u == KeywordOf(k)
    || (k == FunctionBlock && u == BLOCK_NAME) || (k == PropertyGet && u == "PROPERTYGET") || (k == PropertySet && u == "PROPERTYSET")
  }

  /** The END keyword, with END_ or END, and the END of a function block also without its inner underscore. */
  predicate ClosesAs(u: Source, part: Source) {
    || u == END_UNDERSCORE + part || u == END + part
    || (part == "FUNCTION_BLOCK" && (u == END_UNDERSCORE + BLOCK_NAME || u == END + BLOCK_NAME))
  }

  lemma {:induction false} AliasOpens(u: Source, k: UnitKind)
    ensures Alias(u) == KeywordOf(k) <==> OpensAs(u, k)
  {
    PropertiesSettled();
    BlockSettled();
    OpensOne("FUNCTION_BLOCK", k);
    OpensOne("PROPERTY_GET", k);
    OpensOne("PROPERTY_SET", k);
    KeywordStart(k);
    AliasOfKeyword(k);
  }

  lemma {:induction false} KeywordStart(k: UnitKind)
    ensures KeywordOf(k) != [] && KeywordOf(k)[0] != 'E' && KeywordOf(k)[0] != 'N'
  {
    KeywordOpens(k);
    OpeningStart(KeywordOf(k));
  }

  lemma {:induction false} AliasOfKeyword(k: UnitKind)
    ensures Alias(KeywordOf(k)) == KeywordOf(k)
  {
    KeywordStart(k);
    assert (END_UNDERSCORE + BLOCK_NAME)[0] == (END + BLOCK_NAME)[0] == 'E';
    match k
    case Configuration => assert "CONFIGURATION"[0] == 'C' && BLOCK_NAME[0] == 'F';
    case _ => assert |KeywordOf(k)| != 13 && |KeywordOf(k)| != 11;
  }

  /** A word opens a unit of the kind exactly in one of its spellings, in any case. */
  lemma {:induction false} OpensExactly(text: Source, k: UnitKind)
    ensures WordOf(text) == Opens(k) <==> OpensAs(Uppercase(text), k)
  {
    var u, w := Uppercase(text), CanonicalKeyword(text);
    OpensOne(w, k);
    AliasOpens(u, k);
    KeywordStart(k);
    if Alias(u) == u && CompactEnd(u) {
      assert w[0] == 'E';
    }
  }

  lemma {:induction false} EndPartStart(k: UnitKind)
    ensures EndPartOf(k) != [] && EndPartOf(k)[0] != '_' && EndPartOf(k) != BLOCK_NAME
  {
    EndPartIs(k);
    AliasOfKeyword(CloserOf(k));
    KeywordLetters(CloserOf(k));
    assert |BLOCK_NAME| == 13 && |"VAR"| == 3 && "VAR"[0] == 'V' && BLOCK_NAME[8] == 'B' && "FUNCTION_BLOCK"[8] == '_';
  }

  lemma {:induction false} KeywordLetters(k: UnitKind)
    ensures KeywordOf(k) != [] && KeywordOf(k)[0] != '_'
  {
    match k
    case _ =>
  }

  /** END_ and a part are never an alias, and END and a part are compact. */
  lemma {:induction false} EndForms(part: Source)
    requires part != [] && part[0] != '_' && part != BLOCK_NAME
    ensures Alias(END_UNDERSCORE + part) == END_UNDERSCORE + part && !CompactEnd(END_UNDERSCORE + part)
    ensures Alias(END + part) == END + part && CompactEnd(END + part) && END_UNDERSCORE + (END + part)[3..] == END_UNDERSCORE + part
  {
    var u, c := END_UNDERSCORE + part, END + part;
    assert u[4..] == part && c[3..] == part;
    assert (END_UNDERSCORE + BLOCK_NAME)[4..] == BLOCK_NAME && (END + BLOCK_NAME)[3..] == BLOCK_NAME;
    assert u[0] == c[0] == 'E' && u[3] == '_' && c[3] == part[0];
    assert BLOCK_NAME[0] == 'F' && "PROPERTYGET"[0] == "PROPERTYSET"[0] == 'P' && (END_UNDERSCORE + BLOCK_NAME)[3] == '_'
           && (END + BLOCK_NAME)[3] == 'F';
  }

  lemma {:induction false} CanonicalEnd(u: Source, part: Source)
    requires part != [] && part[0] != '_' && part != BLOCK_NAME
    ensures (if Alias(u) != u then Alias(u) else if CompactEnd(u) then END_UNDERSCORE + u[3..] else u) == END_UNDERSCORE + part
       <==> ClosesAs(u, part)
  {
    EndForms(part);
    var e := END_UNDERSCORE + part;
    assert e[0] == 'E' && e[4..] == part;
    if Alias(u) != u {
      assert "PROPERTY_GET"[0] == "PROPERTY_SET"[0] == 'P' && "FUNCTION_BLOCK"[0] == 'F';
      assert (END_UNDERSCORE + "FUNCTION_BLOCK")[4..] == "FUNCTION_BLOCK";
    } else if CompactEnd(u) {
      assert (END_UNDERSCORE + u[3..])[4..] == u[3..];
      assert u == END + u[3..];
    }
  }

  /** A word closes a unit of the kind exactly in one of the spellings of its END keyword. */
  lemma {:induction false} ClosesExactly(text: Source, k: UnitKind)
    ensures WordOf(text) == EndOfKind(k) <==> ClosesAs(Uppercase(text), EndPartOf(k))
  {
    var w := CanonicalKeyword(text);
    EndPartStart(k);
    EndPartIs(k);
    CanonicalEnd(Uppercase(text), EndPartOf(k));
    ClosesOne(w, k);
    if w == END_UNDERSCORE + EndPartOf(k) {
      assert w[0] == 'E';
      if OpeningWord(w).Given? { OpeningStart(w); }
    }
  }

  /** Namespaces open with NAMESPACE and close with END_NAMESPACE or ENDNAMESPACE. */
  lemma {:induction false} NamespacesExactly(text: Source)
    ensures WordOf(text) == EndNamespace <==> ClosesAs(Uppercase(text), "NAMESPACE")
    ensures WordOf(text) == Namespace <==> Uppercase(text) == "NAMESPACE"
  {
    var u, w, e := Uppercase(text), CanonicalKeyword(text), END_UNDERSCORE + "NAMESPACE";
    assert "NAMESPACE"[0] == 'N' && BLOCK_NAME[0] == 'F' && |"NAMESPACE"| == 9;
    CanonicalEnd(u, "NAMESPACE");
    assert e == "END_NAMESPACE" && e[0] == 'E' && e[4..] == "NAMESPACE";
    if OpeningWord(w).Given? { OpeningStart(w); }
    if OpeningWord("NAMESPACE").Given? { OpeningStart("NAMESPACE"); }
  }

  /** The kinds that have members. */
  lemma {:induction false} ContainersExactly(k: UnitKind)
    ensures Container(k) <==> KeywordOf(k) in ["FUNCTION_BLOCK", "CLASS", "INTERFACE", "PROGRAM"]
  {
    OpensOne("FUNCTION_BLOCK", k);
    OpensOne("CLASS", k);
    OpensOne("INTERFACE", k);
    OpensOne("PROGRAM", k);
    KeywordsApart(FunctionBlock, ClassUnit, Interface, Program);
  }

  lemma {:induction false} KeywordsApart(a: UnitKind, b: UnitKind, c: UnitKind, d: UnitKind)
    ensures OpeningWord(KeywordOf(a)) == Given(a) && OpeningWord(KeywordOf(b)) == Given(b)
    ensures OpeningWord(KeywordOf(c)) == Given(c) && OpeningWord(KeywordOf(d)) == Given(d)
  {
    KeywordOpens(a);
    KeywordOpens(b);
    KeywordOpens(c);
    KeywordOpens(d);
  }

  /** The kinds that are members. */
  lemma {:induction false} MembersExactly(k: UnitKind)
    ensures MemberKind(k) <==> KeywordOf(k) in ["METHOD", "PROPERTY", "ACTION", "PROPERTY_GET", "PROPERTY_SET"]
  {
    OpensOne("METHOD", k);
    OpensOne("PROPERTY", k);
    OpensOne("ACTION", k);
    OpensOne("PROPERTY_GET", k);
    OpensOne("PROPERTY_SET", k);
    KeywordsApart(MethodUnit, PropertyUnit, Action, PropertyGet);
    KeywordOpens(PropertySet);
  }

  /** The kinds that do not nest. */
  lemma {:induction false} NestsExactly(k: UnitKind)
    ensures !Nests(k) <==> KeywordOf(k) in ["VAR_GLOBAL", "TYPE"]
  {
    OpensOne("VAR_GLOBAL", k);
    OpensOne("TYPE", k);
    KeywordsApart(VarGlobal, TypeUnit, VarGlobal, TypeUnit);
  }
}
