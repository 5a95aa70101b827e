/** `_offsets_of` of compiler/harness/contract.py: the pointer leaves of a type. */
module PointerOffsets {
  import opened Arithmetic
  import opened StructLayout
  import opened TypeLayout

  ghost function SizeOf<N(!new)>(t: LType<N>, defs: Defs<N>, rank: map<N, nat>): nat
    requires Ranked(defs, rank) && Layout(t, defs, rank).Ok?
  {
    Layout(t, defs, rank).value.size
  }

  /** Offset of a field of a struct. */
  ghost function FieldOffset<N(!new)>(fs: seq<LType<N>>, defs: Defs<N>, rank: map<N, nat>, i: nat): nat
    requires Ranked(defs, rank) && Layouts(fs, defs, rank).Ok? && i < |fs|
  {
    OffsetAt(Layouts(fs, defs, rank).value, i)
  }

  // ----- the enumeration as a function of the type and the base

  ghost function Leaves<N(!new)>(t: LType<N>, defs: Defs<N>, rank: map<N, nat>, base: int): seq<int>
    requires Ranked(defs, rank) && Layout(t, defs, rank).Ok?
    decreases Height(t, rank), t, 1, 0
  {
    match t
    case Ptr => [base]
    case Array(count, e) => ElementLeaves(e, defs, rank, base, count)
    case Vector(count, e) => ElementLeaves(e, defs, rank, base, count)
    case Struct(fs) => FieldLeaves(fs, defs, rank, base, |fs|)
    case Named(n) => Leaves(defs[n], defs, rank, base)
    case _ => []
  }

  ghost function ElementLeaves<N(!new)>(e: LType<N>, defs: Defs<N>, rank: map<N, nat>, base: int, n: nat): seq<int>
    requires Ranked(defs, rank) && Layout(e, defs, rank).Ok?
    decreases Height(e, rank), e, 2, n
  {
    if n == 0 then []
    else
      ElementLeaves(e, defs, rank, base, n - 1)
      + Leaves(e, defs, rank, base + Times(n - 1, SizeOf(e, defs, rank)))
  }

  ghost function FieldLeaves<N(!new)>(fs: seq<LType<N>>, defs: Defs<N>, rank: map<N, nat>, base: int, n: nat): seq<int>
    requires Ranked(defs, rank) && Layouts(fs, defs, rank).Ok? && n <= |fs|
    decreases HeightAll(fs, rank), fs, 0, n
  {
    if n == 0 then []
    else
      LayoutsAt(fs, defs, rank, n - 1);
      HeightPart(fs, rank, n - 1);
      FieldLeaves(fs, defs, rank, base, n - 1)
      + Leaves(fs[n - 1], defs, rank, base + FieldOffset(fs, defs, rank, n - 1))
  }

  /** A name that leads to no definition at all: it has no pointer leaves, where a struct or an array of it
      is an error. */
  ghost predicate Dangling<N(!new)>(t: LType<N>, defs: Defs<N>, rank: map<N, nat>)
    requires Ranked(defs, rank)
    decreases Height(t, rank)
  {
    t.Named? && (t.name !in defs || Dangling(defs[t.name], defs, rank))
  }

  /** `_offsets_of`. */
  method OffsetsOf<N(==, !new)>(t: LType<N>, defs: Defs<N>, base: int, ghost rank: map<N, nat>)
    returns (r: Result<seq<int>, N>)
    requires Ranked(defs, rank)
    ensures Layout(t, defs, rank).Ok? ==> r == Ok(Leaves(t, defs, rank, base))
    ensures Layout(t, defs, rank).Undefined?
        ==> r == if Dangling(t, defs, rank) then Ok([]) else Undefined(Layout(t, defs, rank).name)
    decreases Height(t, rank), t, 1
  {
    match t
    case Ptr => r := Ok([base]);
    case Array(count, e) => r := ArrayOffsets(count, e, defs, base, rank);
    case Vector(count, e) => r := ArrayOffsets(count, e, defs, base, rank);
    case Struct(fs) => r := StructOffsets(fs, defs, base, rank);
    case Named(n) =>
      if n in defs {
        r := OffsetsOf(defs[n], defs, base, rank);
      } else {
        r := Ok([]);
      }
    case _ => r := Ok([]);
  }

  method ArrayOffsets<N(==, !new)>(count: nat, e: LType<N>, defs: Defs<N>, base: int, ghost rank: map<N, nat>)
    returns (r: Result<seq<int>, N>)
    requires Ranked(defs, rank)
    ensures Layout(e, defs, rank).Ok? ==> r == Ok(ElementLeaves(e, defs, rank, base, count))
    ensures Layout(e, defs, rank).Undefined? ==> r == Undefined(Layout(e, defs, rank).name)
    decreases Height(e, rank), e, 2
  {
    var result: seq<int> := [];
    if e.Ptr? {
      for index := 0 to count
        invariant result == ElementLeaves(e, defs, rank, base, index)
      {
        var at := ElementBase(base, index, 8);
        result := result + [at];
      }
      return Ok(result);
    }
    var cache := new Cache();
    var size := SizeAlignOf(e, defs, cache, rank);
    if size.Undefined? {
      return Undefined(size.name);
    }
    for index := 0 to count
      invariant result == ElementLeaves(e, defs, rank, base, index)
    {
      var at := ElementBase(base, index, size.value.size);
      var block := OffsetsOf(e, defs, at, rank);
      result := result + block.value;
    }
    r := Ok(result);
  }

  method ElementBase(base: int, index: nat, size: nat) returns (at: int)
    ensures at == base + Times(index, size)
  {
    TimesIsProduct(index, size);
    at := base + index * size;
  }

  method StructOffsets<N(==, !new)>(fs: seq<LType<N>>, defs: Defs<N>, base: int, ghost rank: map<N, nat>)
    returns (r: Result<seq<int>, N>)
    requires Ranked(defs, rank)
    ensures Layouts(fs, defs, rank).Ok? ==> r == Ok(FieldLeaves(fs, defs, rank, base, |fs|))
    ensures Layouts(fs, defs, rank).Undefined? ==> r == Undefined(Layouts(fs, defs, rank).name)
    decreases HeightAll(fs, rank), fs, 0
  {
    var ps := StructFields(fs, defs, rank);
    if ps.Undefined? {
      return Undefined(ps.name);
    }
    var result: seq<int> := [];
    for i := 0 to |fs|
      invariant result == FieldLeaves(fs, defs, rank, base, i)
    {
      HeightPart(fs, rank, i);
      LayoutsAt(fs, defs, rank, i);
      var block := OffsetsOf(fs[i], defs, base + ps.value[i].offset, rank);
      result := result + block.value;
    }
    r := Ok(result);
  }

  method StructFields<N(==, !new)>(fs: seq<LType<N>>, defs: Defs<N>, ghost rank: map<N, nat>)
    returns (r: Result<seq<Placement<N>>, N>)
    requires Ranked(defs, rank)
    ensures r.Ok? <==> Layouts(fs, defs, rank).Ok?
    ensures r.Undefined? ==> Layouts(fs, defs, rank) == Undefined(r.name)
    ensures r.Ok? ==> |r.value| == |fs| && forall i :: 0 <= i < |fs| ==> r.value[i].offset == FieldOffset(fs, defs, rank, i)
  {
    ghost var sas;
    r, sas := FieldLayout(fs, defs, rank);
  }

  // ----- spacing and bounds

  /** Strictly increasing, at least a pointer apart, within [lo, hi). */
  ghost predicate SpacedIn(offs: seq<int>, lo: int, hi: int) {
    && (forall i :: 0 <= i < |offs| ==> lo <= offs[i] && offs[i] + 8 <= hi)
    && forall i, j :: 0 <= i < j < |offs| ==> offs[i] + 8 <= offs[j]
  }

  lemma {:induction false} SpacedConcat(a: seq<int>, b: seq<int>, lo: int, mid: int, at: int, end: int, hi: int)
    requires SpacedIn(a, lo, mid) && SpacedIn(b, at, end) && lo <= mid <= at <= end <= hi
    ensures SpacedIn(a + b, lo, hi)
  {
  }

  /** Strictly increasing, disjoint and inside the type. */
  lemma {:induction false} LeavesSpaced<N(!new)>(t: LType<N>, defs: Defs<N>, rank: map<N, nat>, base: int)
    requires Ranked(defs, rank) && Layout(t, defs, rank).Ok?
    ensures SpacedIn(Leaves(t, defs, rank, base), base, base + SizeOf(t, defs, rank))
    decreases Height(t, rank), t, 1, 0
  {
    match t
    case Array(count, e) => ElementsSpaced(e, defs, rank, base, count);
    case Vector(count, e) => ElementsSpaced(e, defs, rank, base, count);
    case Struct(fs) =>
      FieldsSpaced(fs, defs, rank, base, |fs|);
      StructBounds(Layouts(fs, defs, rank).value);
    case Named(n) => LeavesSpaced(defs[n], defs, rank, base);
    case _ =>
  }

  lemma {:induction false} ElementsSpaced<N(!new)>(e: LType<N>, defs: Defs<N>, rank: map<N, nat>, base: int, n: nat)
    requires Ranked(defs, rank) && Layout(e, defs, rank).Ok?
    ensures SpacedIn(ElementLeaves(e, defs, rank, base, n), base, base + Times(n, SizeOf(e, defs, rank)))
    decreases Height(e, rank), e, 2, n
  {
    if n > 0 {
      var size := SizeOf(e, defs, rank);
      var at := base + Times(n - 1, size);
      ElementsSpaced(e, defs, rank, base, n - 1);
      LeavesSpaced(e, defs, rank, at);
      SpacedConcat(ElementLeaves(e, defs, rank, base, n - 1), Leaves(e, defs, rank, at), base, at, at, at + size, at + size);
    }
  }

  lemma {:induction false} FieldsSpaced<N(!new)>(fs: seq<LType<N>>, defs: Defs<N>, rank: map<N, nat>, base: int, n: nat)
    requires Ranked(defs, rank) && Layouts(fs, defs, rank).Ok? && n <= |fs|
    ensures SpacedIn(FieldLeaves(fs, defs, rank, base, n), base, base + End(Layouts(fs, defs, rank).value[..n]))
    decreases HeightAll(fs, rank), fs, 0, n
  {
    if n > 0 {
      var sas := Layouts(fs, defs, rank).value;
      var at := base + FieldOffset(fs, defs, rank, n - 1);
      LayoutsAt(fs, defs, rank, n - 1);
      FieldsSpaced(fs, defs, rank, base, n - 1);
      FieldSpaced(fs, defs, rank, at, n - 1);
      FieldLeavesStep(fs, defs, rank, base, n);
      NextFieldSpaced(sas, n - 1, base, FieldLeaves(fs, defs, rank, base, n - 1), Leaves(fs[n - 1], defs, rank, at));
    }
  }

  lemma {:induction false} FieldSpaced<N(!new)>(fs: seq<LType<N>>, defs: Defs<N>, rank: map<N, nat>, at: int, i: nat)
    requires Ranked(defs, rank) && Layouts(fs, defs, rank).Ok? && i < |fs| && Layout(fs[i], defs, rank).Ok?
    ensures SpacedIn(Leaves(fs[i], defs, rank, at), at, at + Layouts(fs, defs, rank).value[i].size)
    decreases HeightAll(fs, rank), fs, 0, 0
  {
    HeightPart(fs, rank, i);
    LayoutsAt(fs, defs, rank, i);
    LeavesSpaced(fs[i], defs, rank, at);
  }

  /** The leaves of a field join those of the fields before it. */
  lemma {:induction false} NextFieldSpaced(sas: seq<SizeAlign>, i: nat, base: int, front: seq<int>, last: seq<int>)
    requires Aligned(sas) && i < |sas| && SpacedIn(front, base, base + End(sas[..i]))
    requires SpacedIn(last, base + OffsetAt(sas, i), base + OffsetAt(sas, i) + sas[i].size)
    ensures SpacedIn(front + last, base, base + End(sas[..i + 1]))
  {
    var at := base + OffsetAt(sas, i);
    FieldBounds(sas, i);
    SpacedConcat(front, last, base, base + End(sas[..i]), at, at + sas[i].size, base + End(sas[..i + 1]));
  }

  lemma {:induction false} FieldBounds(sas: seq<SizeAlign>, n: nat)
    requires Aligned(sas) && n < |sas|
    ensures End(sas[..n]) <= OffsetAt(sas, n) && End(sas[..n + 1]) == OffsetAt(sas, n) + sas[n].size
  {
    PadIsLeast(End(sas[..n]), sas[n].align);
    assert sas[..n + 1][..n] == sas[..n];
  }

  lemma {:induction false} StructBounds(sas: seq<SizeAlign>)
    requires Aligned(sas)
    ensures End(sas[..|sas|]) <= StructOf(sas).size
  {
    assert sas[..|sas|] == sas;
    MaxAlignIsGreatest(sas);
    PadIsLeast(End(sas), MaxAlign(sas));
  }

  // ----- alignment

  ghost predicate EightAligned(offs: seq<int>) {
    forall i :: 0 <= i < |offs| ==> offs[i] % 8 == 0
  }

  /** With power-of-two scalars every pointer leaf of a type placed at an aligned base is 8-aligned. */
  lemma {:induction false} LeavesAligned<N(!new)>(t: LType<N>, defs: Defs<N>, rank: map<N, nat>, base: int)
    requires Ranked(defs, rank) && Regular(t) && RegularDefs(defs) && Layout(t, defs, rank).Ok?
    requires base % Layout(t, defs, rank).value.align == 0
    ensures EightAligned(Leaves(t, defs, rank, base))
    decreases Height(t, rank), t, 1, 0
  {
    match t
    case Array(count, e) => ElementsAligned(e, defs, rank, base, count);
    case Vector(count, e) => ElementsAligned(e, defs, rank, base, count);
    case Struct(fs) =>
      RegularsDivide(fs, defs, rank);
      var sas := Layouts(fs, defs, rank).value;
      MaxDivides(sas, base);
      FieldsAligned(fs, defs, rank, base, |fs|);
    case Named(n) => LeavesAligned(defs[n], defs, rank, base);
    case _ =>
  }

  /** A multiple of the largest power-of-two alignment is a multiple of each. */
  lemma {:induction false} MaxDivides(sas: seq<SizeAlign>, base: int)
    requires (forall i :: 0 <= i < |sas| ==> PowerAlign(sas[i].align)) && MaxAlign(sas) >= 1 && base % MaxAlign(sas) == 0
    ensures forall i :: 0 <= i < |sas| ==> sas[i].align >= 1 && base % sas[i].align == 0
  {
    MaxAlignIsGreatest(sas);
    assert PowerAlign(MaxAlign(sas));
    forall i | 0 <= i < |sas| ensures sas[i].align >= 1 && base % sas[i].align == 0 {
      PowersDivide(base, MaxAlign(sas), sas[i].align);
    }
  }

  lemma {:induction false} PowersDivide(base: int, m: nat, a: nat)
    requires PowerAlign(m) && PowerAlign(a) && a <= m && base % m == 0
    ensures base % a == 0
    decreases m
  {
    if a < m {
      assert base == 2 * (m / 2) * (base / m);
      DivModUnique(2 * (base / m), 0, m / 2);
      PowersDivide(base, m / 2, a);
    }
  }

  lemma {:induction false} ElementsAligned<N(!new)>(e: LType<N>, defs: Defs<N>, rank: map<N, nat>, base: int, n: nat)
    requires Ranked(defs, rank) && Regular(e) && RegularDefs(defs) && Layout(e, defs, rank).Ok?
    requires base % Layout(e, defs, rank).value.align == 0
    ensures EightAligned(ElementLeaves(e, defs, rank, base, n))
    decreases Height(e, rank), e, 2, n
  {
    if n > 0 {
      var sa := Layout(e, defs, rank).value;
      ElementsAligned(e, defs, rank, base, n - 1);
      RegularDivides(e, defs, rank);
      TimesIsProduct(n - 1, sa.size);
      MultipleOf(n - 1, sa.size, sa.align);
      AddMultiple(base, Times(n - 1, sa.size), sa.align);
      LeavesAligned(e, defs, rank, base + Times(n - 1, sa.size));
    }
  }

  lemma {:induction false} FieldsAligned<N(!new)>(fs: seq<LType<N>>, defs: Defs<N>, rank: map<N, nat>, base: int, n: nat)
    requires Ranked(defs, rank) && Regular(Struct(fs)) && RegularDefs(defs) && Layouts(fs, defs, rank).Ok? && n <= |fs|
    requires forall i :: 0 <= i < |fs| ==> base % Layouts(fs, defs, rank).value[i].align == 0
    ensures EightAligned(FieldLeaves(fs, defs, rank, base, n))
    decreases HeightAll(fs, rank), fs, 0, n
  {
    if n > 0 {
      var sas := Layouts(fs, defs, rank).value;
      LayoutsAt(fs, defs, rank, n - 1);
      HeightPart(fs, rank, n - 1);
      FieldsAligned(fs, defs, rank, base, n - 1);
      PadIsLeast(End(sas[..n - 1]), sas[n - 1].align);
      AddMultiple(base, FieldOffset(fs, defs, rank, n - 1), sas[n - 1].align);
      LeavesAligned(fs[n - 1], defs, rank, base + FieldOffset(fs, defs, rank, n - 1));
    }
  }

  // ----- exactness: the enumeration lists the leaves that the type tree has

  /** A path selects an element of an array, a field of a struct or follows a name. */
  ghost predicate LeafAt<N(!new)>(t: LType<N>, defs: Defs<N>, rank: map<N, nat>, path: seq<nat>, off: int)
    requires Ranked(defs, rank) && Layout(t, defs, rank).Ok?
    decreases Height(t, rank), t
  {
    match t
    case Ptr => path == [] && off == 0
    case Array(count, e) =>
      path != [] && path[0] < count && LeafAt(e, defs, rank, path[1..], off - Times(path[0], SizeOf(e, defs, rank)))
    case Vector(count, e) =>
      path != [] && path[0] < count && LeafAt(e, defs, rank, path[1..], off - Times(path[0], SizeOf(e, defs, rank)))
    case Struct(fs) =>
      path != [] && path[0] < |fs| &&
      (LayoutsAt(fs, defs, rank, path[0]); HeightPart(fs, rank, path[0]);
       LeafAt(fs[path[0]], defs, rank, path[1..], off - FieldOffset(fs, defs, rank, path[0])))
    case Named(n) => LeafAt(defs[n], defs, rank, path, off)
    case _ => false
  }

  lemma {:induction false} FieldLeafAt<N(!new)>(fs: seq<LType<N>>, defs: Defs<N>, rank: map<N, nat>, i: nat, rest: seq<nat>, off: int)
    requires Ranked(defs, rank) && Layouts(fs, defs, rank).Ok? && i < |fs| && Layout(fs[i], defs, rank).Ok?
    requires LeafAt(fs[i], defs, rank, rest, off - FieldOffset(fs, defs, rank, i))
    ensures LeafAt(Struct(fs), defs, rank, [i] + rest, off)
  {
    var path := [i] + rest;
    assert path[0] == i && path[1..] == rest;
  }

  lemma {:induction false} ElementLeafAt<N(!new)>(count: nat, e: LType<N>, defs: Defs<N>, rank: map<N, nat>, i: nat, rest: seq<nat>, off: int)
    requires Ranked(defs, rank) && Layout(e, defs, rank).Ok? && i < count
    requires LeafAt(e, defs, rank, rest, off - Times(i, SizeOf(e, defs, rank)))
    ensures LeafAt(Array(count, e), defs, rank, [i] + rest, off)
    ensures LeafAt(Vector(count, e), defs, rank, [i] + rest, off)
  {
    var path := [i] + rest;
    assert path[0] == i && path[1..] == rest;
  }

  /** Every listed offset is a pointer leaf. */
  lemma {:induction false} ListedIsLeaf<N(!new)>(t: LType<N>, defs: Defs<N>, rank: map<N, nat>, base: int, o: int)
    returns (path: seq<nat>)
    requires Ranked(defs, rank) && Layout(t, defs, rank).Ok? && o in Leaves(t, defs, rank, base)
    ensures LeafAt(t, defs, rank, path, o - base)
    decreases Height(t, rank), t, 1, 0
  {
    match t
    case Ptr => path := [];
    case Array(count, e) => path := ListedInElements(count, e, defs, rank, base, o);
    case Vector(count, e) => path := ListedInElements(count, e, defs, rank, base, o);
    case Struct(fs) => path := ListedInFields(fs, defs, rank, base, o);
    case Named(n) => path := ListedIsLeaf(defs[n], defs, rank, base, o);
  }

  lemma {:induction false} ListedInElements<N(!new)>(count: nat, e: LType<N>, defs: Defs<N>, rank: map<N, nat>, base: int, o: int)
    returns (path: seq<nat>)
    requires Ranked(defs, rank) && Layout(e, defs, rank).Ok? && o in ElementLeaves(e, defs, rank, base, count)
    ensures LeafAt(Array(count, e), defs, rank, path, o - base)
    ensures LeafAt(Vector(count, e), defs, rank, path, o - base)
    decreases Height(e, rank), e, 3, 0
  {
    var i, rest := ListedElement(e, defs, rank, base, count, o);
    path := [i] + rest;
    ElementLeafAt(count, e, defs, rank, i, rest, o - base);
  }

  lemma {:induction false} ListedInFields<N(!new)>(fs: seq<LType<N>>, defs: Defs<N>, rank: map<N, nat>, base: int, o: int)
    returns (path: seq<nat>)
    requires Ranked(defs, rank) && Layouts(fs, defs, rank).Ok? && o in FieldLeaves(fs, defs, rank, base, |fs|)
    ensures LeafAt(Struct(fs), defs, rank, path, o - base)
    decreases HeightAll(fs, rank), fs, 1, 0
  {
    var i, rest := ListedField(fs, defs, rank, base, |fs|, o);
    path := [i] + rest;
    FieldLeafAt(fs, defs, rank, i, rest, o - base);
  }

  lemma {:induction false} ListedElement<N(!new)>(e: LType<N>, defs: Defs<N>, rank: map<N, nat>, base: int, n: nat, o: int)
    returns (i: nat, path: seq<nat>)
    requires Ranked(defs, rank) && Layout(e, defs, rank).Ok? && o in ElementLeaves(e, defs, rank, base, n)
    ensures i < n && LeafAt(e, defs, rank, path, o - base - Times(i, SizeOf(e, defs, rank)))
    decreases Height(e, rank), e, 2, n
  {
    var at := Times(n - 1, SizeOf(e, defs, rank));
    if o in ElementLeaves(e, defs, rank, base, n - 1) {
      i, path := ListedElement(e, defs, rank, base, n - 1, o);
    } else {
      i := n - 1;
      path := ListedIsLeaf(e, defs, rank, base + at, o);
      assert o - (base + at) == o - base - at;
    }
  }

  lemma {:induction false} ListedField<N(!new)>(fs: seq<LType<N>>, defs: Defs<N>, rank: map<N, nat>, base: int, n: nat, o: int)
    returns (i: nat, path: seq<nat>)
    requires Ranked(defs, rank) && Layouts(fs, defs, rank).Ok? && n <= |fs| && o in FieldLeaves(fs, defs, rank, base, n)
    ensures i < n && Layout(fs[i], defs, rank).Ok?
    ensures LeafAt(fs[i], defs, rank, path, o - base - FieldOffset(fs, defs, rank, i))
    decreases HeightAll(fs, rank), fs, 0, n
  {
    LayoutsAt(fs, defs, rank, n - 1);
    FieldLeavesStep(fs, defs, rank, base, n);
    if o in FieldLeaves(fs, defs, rank, base, n - 1) {
      i, path := ListedField(fs, defs, rank, base, n - 1, o);
    } else {
      i := n - 1;
      path := ListedInLast(fs, defs, rank, base, i, o);
    }
  }

  lemma {:induction false} ListedInLast<N(!new)>(fs: seq<LType<N>>, defs: Defs<N>, rank: map<N, nat>, base: int, i: nat, o: int)
    returns (path: seq<nat>)
    requires Ranked(defs, rank) && Layouts(fs, defs, rank).Ok? && i < |fs| && Layout(fs[i], defs, rank).Ok?
    requires o in Leaves(fs[i], defs, rank, base + FieldOffset(fs, defs, rank, i))
    ensures LeafAt(fs[i], defs, rank, path, o - base - FieldOffset(fs, defs, rank, i))
    decreases HeightAll(fs, rank), fs, 0, 0
  {
    var at := FieldOffset(fs, defs, rank, i);
    HeightPart(fs, rank, i);
    path := ListedIsLeaf(fs[i], defs, rank, base + at, o);
    assert o - (base + at) == o - base - at;
  }

  /** Every pointer leaf is listed. */
  lemma {:induction false} LeafIsListed<N(!new)>(t: LType<N>, defs: Defs<N>, rank: map<N, nat>, base: int, path: seq<nat>, off: int)
    requires Ranked(defs, rank) && Layout(t, defs, rank).Ok? && LeafAt(t, defs, rank, path, off)
    ensures base + off in Leaves(t, defs, rank, base)
    decreases Height(t, rank), t, 1, 0
  {
    match t
    case Ptr =>
    case Array(count, e) => ElementLeafListed(count, e, defs, rank, base, path, off);
    case Vector(count, e) => ElementLeafListed(count, e, defs, rank, base, path, off);
    case Struct(fs) => FieldLeafListed(fs, defs, rank, base, path, off);
    case Named(n) => LeafIsListed(defs[n], defs, rank, base, path, off);
  }

  lemma {:induction false} ElementLeafListed<N(!new)>(count: nat, e: LType<N>, defs: Defs<N>, rank: map<N, nat>, base: int,
                                                      path: seq<nat>, off: int)
    requires Ranked(defs, rank) && Layout(e, defs, rank).Ok?
    requires LeafAt(Array(count, e), defs, rank, path, off) || LeafAt(Vector(count, e), defs, rank, path, off)
    ensures base + off in ElementLeaves(e, defs, rank, base, count)
    decreases Height(e, rank), e, 3, 0
  {
    ElementListed(e, defs, rank, base, count, path[0], path[1..], off - Times(path[0], SizeOf(e, defs, rank)));
  }

  lemma {:induction false} FieldLeafListed<N(!new)>(fs: seq<LType<N>>, defs: Defs<N>, rank: map<N, nat>, base: int,
                                                    path: seq<nat>, off: int)
    requires Ranked(defs, rank) && Layouts(fs, defs, rank).Ok? && LeafAt(Struct(fs), defs, rank, path, off)
    ensures base + off in FieldLeaves(fs, defs, rank, base, |fs|)
    decreases HeightAll(fs, rank), fs, 1, 0
  {
    LayoutsAt(fs, defs, rank, path[0]);
    FieldListed(fs, defs, rank, base, |fs|, path[0], path[1..], off - FieldOffset(fs, defs, rank, path[0]));
  }

  lemma {:induction false} ElementListed<N(!new)>(e: LType<N>, defs: Defs<N>, rank: map<N, nat>, base: int, n: nat,
                                                  i: nat, path: seq<nat>, off: int)
    requires Ranked(defs, rank) && Layout(e, defs, rank).Ok? && i < n && LeafAt(e, defs, rank, path, off)
    ensures base + Times(i, SizeOf(e, defs, rank)) + off in ElementLeaves(e, defs, rank, base, n)
    decreases Height(e, rank), e, 2, n
  {
    if i < n - 1 {
      ElementListed(e, defs, rank, base, n - 1, i, path, off);
    } else {
      LeafIsListed(e, defs, rank, base + Times(i, SizeOf(e, defs, rank)), path, off);
    }
  }

  lemma {:induction false} FieldListed<N(!new)>(fs: seq<LType<N>>, defs: Defs<N>, rank: map<N, nat>, base: int, n: nat,
                                                i: nat, path: seq<nat>, off: int)
    requires Ranked(defs, rank) && Layouts(fs, defs, rank).Ok? && i < n <= |fs| && Layout(fs[i], defs, rank).Ok?
    requires LeafAt(fs[i], defs, rank, path, off)
    ensures base + FieldOffset(fs, defs, rank, i) + off in FieldLeaves(fs, defs, rank, base, n)
    decreases HeightAll(fs, rank), fs, 0, n
  {
    LayoutsAt(fs, defs, rank, n - 1);
    FieldLeavesStep(fs, defs, rank, base, n);
    if i < n - 1 {
      FieldListed(fs, defs, rank, base, n - 1, i, path, off);
    } else {
      HeightPart(fs, rank, i);
      LeafIsListed(fs[i], defs, rank, base + FieldOffset(fs, defs, rank, i), path, off);
    }
  }

  lemma {:induction false} FieldLeavesStep<N(!new)>(fs: seq<LType<N>>, defs: Defs<N>, rank: map<N, nat>, base: int, n: nat)
    requires Ranked(defs, rank) && Layouts(fs, defs, rank).Ok? && 0 < n <= |fs| && Layout(fs[n - 1], defs, rank).Ok?
    ensures FieldLeaves(fs, defs, rank, base, n)
         == FieldLeaves(fs, defs, rank, base, n - 1) + Leaves(fs[n - 1], defs, rank, base + FieldOffset(fs, defs, rank, n - 1))
  {
  }
}
