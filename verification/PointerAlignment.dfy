/** When the pointer leaves that `_offsets_of` lists are multiples of eight, for any type and base. */
module PointerAlignment {
  import opened Arithmetic
  import opened StructLayout
  import opened TypeLayout
  import opened PointerOffsets

  // ----- types with a pointer inside

  ghost predicate HoldsPtr<N(!new)>(t: LType<N>, defs: Defs<N>, rank: map<N, nat>)
    requires Ranked(defs, rank)
    decreases Height(t, rank), t, 1
  {
    match t
    case Ptr => true
    case Array(count, e) => count > 0 && HoldsPtr(e, defs, rank)
    case Vector(count, e) => count > 0 && HoldsPtr(e, defs, rank)
    case Struct(fs) => SomeHoldsPtr(fs, defs, rank, |fs|)
    case Named(n) => n in defs && HoldsPtr(defs[n], defs, rank)
    case _ => false
  }

  ghost predicate SomeHoldsPtr<N(!new)>(fs: seq<LType<N>>, defs: Defs<N>, rank: map<N, nat>, n: nat)
    requires Ranked(defs, rank) && n <= |fs|
    decreases HeightAll(fs, rank), fs, 0, n
  {
    n > 0 && (HeightPart(fs, rank, n - 1); SomeHoldsPtr(fs, defs, rank, n - 1) || HoldsPtr(fs[n - 1], defs, rank))
  }

  lemma {:induction false} HoldsExactly<N(!new)>(t: LType<N>, defs: Defs<N>, rank: map<N, nat>, base: int)
    requires Ranked(defs, rank) && Layout(t, defs, rank).Ok?
    ensures HoldsPtr(t, defs, rank) <==> Leaves(t, defs, rank, base) != []
    decreases Height(t, rank), t, 1, 0
  {
    match t
    case Array(count, e) => ElementsHold(e, defs, rank, base, count);
    case Vector(count, e) => ElementsHold(e, defs, rank, base, count);
    case Struct(fs) => FieldsHold(fs, defs, rank, base, |fs|);
    case Named(n) => HoldsExactly(defs[n], defs, rank, base);
    case _ =>
  }

  lemma {:induction false} ElementsHold<N(!new)>(e: LType<N>, defs: Defs<N>, rank: map<N, nat>, base: int, n: nat)
    requires Ranked(defs, rank) && Layout(e, defs, rank).Ok?
    ensures n > 0 && HoldsPtr(e, defs, rank) <==> ElementLeaves(e, defs, rank, base, n) != []
    decreases Height(e, rank), e, 2, n
  {
    if n > 0 {
      ElementsHold(e, defs, rank, base, n - 1);
      HoldsExactly(e, defs, rank, base + Times(n - 1, SizeOf(e, defs, rank)));
    }
  }

  lemma {:induction false} FieldsHold<N(!new)>(fs: seq<LType<N>>, defs: Defs<N>, rank: map<N, nat>, base: int, n: nat)
    requires Ranked(defs, rank) && Layouts(fs, defs, rank).Ok? && n <= |fs|
    ensures SomeHoldsPtr(fs, defs, rank, n) <==> FieldLeaves(fs, defs, rank, base, n) != []
    decreases HeightAll(fs, rank), fs, 0, n
  {
    if n > 0 {
      LayoutsAt(fs, defs, rank, n - 1);
      HeightPart(fs, rank, n - 1);
      FieldLeavesStep(fs, defs, rank, base, n);
      FieldsHold(fs, defs, rank, base, n - 1);
      HoldsExactly(fs[n - 1], defs, rank, base + FieldOffset(fs, defs, rank, n - 1));
    }
  }

  // ----- the leaves of a type that is moved

  /** The same offsets, s further. */
  ghost predicate Moved(a: seq<int>, b: seq<int>, s: int) {
    |a| == |b| && forall i :: 0 <= i < |a| ==> b[i] == a[i] + s
  }

  lemma {:induction false} MovedConcat(a: seq<int>, b: seq<int>, c: seq<int>, d: seq<int>, s: int)
    requires Moved(a, c, s) && Moved(b, d, s)
    ensures Moved(a + b, c + d, s)
  {
  }

  lemma {:induction false} LeavesMove<N(!new)>(t: LType<N>, defs: Defs<N>, rank: map<N, nat>, base: int, s: int)
    requires Ranked(defs, rank) && Layout(t, defs, rank).Ok?
    ensures Moved(Leaves(t, defs, rank, base), Leaves(t, defs, rank, base + s), s)
    decreases Height(t, rank), t, 1, 0
  {
    match t
    case Array(count, e) => ElementsMove(e, defs, rank, base, s, count);
    case Vector(count, e) => ElementsMove(e, defs, rank, base, s, count);
    case Struct(fs) => FieldsMove(fs, defs, rank, base, s, |fs|);
    case Named(n) => LeavesMove(defs[n], defs, rank, base, s);
    case _ =>
  }

  lemma {:induction false} ElementsMove<N(!new)>(e: LType<N>, defs: Defs<N>, rank: map<N, nat>, base: int, s: int, n: nat)
    requires Ranked(defs, rank) && Layout(e, defs, rank).Ok?
    ensures Moved(ElementLeaves(e, defs, rank, base, n), ElementLeaves(e, defs, rank, base + s, n), s)
    decreases Height(e, rank), e, 2, n
  {
    if n > 0 {
      var at := Times(n - 1, SizeOf(e, defs, rank));
      ElementsMove(e, defs, rank, base, s, n - 1);
      LeavesMove(e, defs, rank, base + at, s);
      assert base + at + s == base + s + at;
      MovedConcat(ElementLeaves(e, defs, rank, base, n - 1), Leaves(e, defs, rank, base + at),
                  ElementLeaves(e, defs, rank, base + s, n - 1), Leaves(e, defs, rank, base + s + at), s);
    }
  }

  lemma {:induction false} FieldsMove<N(!new)>(fs: seq<LType<N>>, defs: Defs<N>, rank: map<N, nat>, base: int, s: int, n: nat)
    requires Ranked(defs, rank) && Layouts(fs, defs, rank).Ok? && n <= |fs|
    ensures Moved(FieldLeaves(fs, defs, rank, base, n), FieldLeaves(fs, defs, rank, base + s, n), s)
    decreases HeightAll(fs, rank), fs, 0, n
  {
    if n > 0 {
      var at := FieldOffset(fs, defs, rank, n - 1);
      LayoutsAt(fs, defs, rank, n - 1);
      HeightPart(fs, rank, n - 1);
      FieldsMove(fs, defs, rank, base, s, n - 1);
      LeavesMove(fs[n - 1], defs, rank, base + at, s);
      assert base + at + s == base + s + at;
      FieldLeavesStep(fs, defs, rank, base, n);
      FieldLeavesStep(fs, defs, rank, base + s, n);
      MovedConcat(FieldLeaves(fs, defs, rank, base, n - 1), Leaves(fs[n - 1], defs, rank, base + at),
                  FieldLeaves(fs, defs, rank, base + s, n - 1), Leaves(fs[n - 1], defs, rank, base + s + at), s);
    }
  }

  // ----- multiples of eight

  lemma {:induction false} AlignedConcat(a: seq<int>, b: seq<int>)
    ensures EightAligned(a + b) <==> EightAligned(a) && EightAligned(b)
  {
    if EightAligned(a + b) {
      forall i | 0 <= i < |a| ensures a[i] % 8 == 0 { assert (a + b)[i] == a[i]; }
      forall i | 0 <= i < |b| ensures b[i] % 8 == 0 { assert (a + b)[|a| + i] == b[i]; }
    }
  }

  /** Aligned offsets stay aligned exactly when they move by a multiple of eight, if there are any. */
  lemma {:induction false} MovedAligned(a: seq<int>, b: seq<int>, s: int)
    requires Moved(a, b, s) && EightAligned(a)
    ensures EightAligned(b) <==> a == [] || s % 8 == 0
  {
    if a != [] && EightAligned(b) {
      assert a[0] % 8 == 0 && b[0] % 8 == 0 && b[0] == a[0] + s;
    }
    if s % 8 == 0 {
      forall i | 0 <= i < |b| ensures b[i] % 8 == 0 {
        assert a[i] % 8 == 0 && b[i] == a[i] + s;
      }
    }
  }

  /** The pointers of a type at this base are at multiples of eight: of an array those of the first element
      are, and the element size is a multiple of eight unless the array holds no second pointer. */
  ghost predicate PtrsEven<N(!new)>(t: LType<N>, defs: Defs<N>, rank: map<N, nat>, base: int)
    requires Ranked(defs, rank) && Layout(t, defs, rank).Ok?
    decreases Height(t, rank), t, 1, 0
  {
    match t
    case Ptr => base % 8 == 0
    case Array(count, e) => ElementsEven(count, e, defs, rank, base)
    case Vector(count, e) => ElementsEven(count, e, defs, rank, base)
    case Struct(fs) => FieldsEven(fs, defs, rank, base, |fs|)
    case Named(n) => PtrsEven(defs[n], defs, rank, base)
    case _ => true
  }

  ghost predicate ElementsEven<N(!new)>(count: nat, e: LType<N>, defs: Defs<N>, rank: map<N, nat>, base: int)
    requires Ranked(defs, rank) && Layout(e, defs, rank).Ok?
    decreases Height(e, rank), e, 2, 0
  {
    && (count > 0 ==> PtrsEven(e, defs, rank, base))
    && (count > 1 && HoldsPtr(e, defs, rank) ==> SizeOf(e, defs, rank) % 8 == 0)
  }

  ghost predicate FieldsEven<N(!new)>(fs: seq<LType<N>>, defs: Defs<N>, rank: map<N, nat>, base: int, n: nat)
    requires Ranked(defs, rank) && Layouts(fs, defs, rank).Ok? && n <= |fs|
    decreases HeightAll(fs, rank), fs, 0, n
  {
    n > 0 ==>
      (LayoutsAt(fs, defs, rank, n - 1); HeightPart(fs, rank, n - 1);
       FieldsEven(fs, defs, rank, base, n - 1) && PtrsEven(fs[n - 1], defs, rank, base + FieldOffset(fs, defs, rank, n - 1)))
  }

  /** The listed offsets are multiples of eight exactly when PtrsEven says so, whatever the scalars. */
  lemma {:induction false} LeavesEvenExactly<N(!new)>(t: LType<N>, defs: Defs<N>, rank: map<N, nat>, base: int)
    requires Ranked(defs, rank) && Layout(t, defs, rank).Ok?
    ensures EightAligned(Leaves(t, defs, rank, base)) <==> PtrsEven(t, defs, rank, base)
    decreases Height(t, rank), t, 1, 0
  {
    match t
    case Ptr => assert Leaves(t, defs, rank, base)[0] == base;
    case Array(count, e) => ElementsEvenExactly(e, defs, rank, base, count);
    case Vector(count, e) => ElementsEvenExactly(e, defs, rank, base, count);
    case Struct(fs) => FieldsEvenExactly(fs, defs, rank, base, |fs|);
    case Named(n) => LeavesEvenExactly(defs[n], defs, rank, base);
    case _ =>
  }

  lemma {:induction false} ElementsEvenExactly<N(!new)>(e: LType<N>, defs: Defs<N>, rank: map<N, nat>, base: int, n: nat)
    requires Ranked(defs, rank) && Layout(e, defs, rank).Ok?
    ensures EightAligned(ElementLeaves(e, defs, rank, base, n)) <==> ElementsEven(n, e, defs, rank, base)
    decreases Height(e, rank), e, 2, n
  {
    if n > 0 {
      var size := SizeOf(e, defs, rank);
      var at := Times(n - 1, size);
      AlignedConcat(ElementLeaves(e, defs, rank, base, n - 1), Leaves(e, defs, rank, base + at));
      if n == 1 {
        LeavesEvenExactly(e, defs, rank, base);
      } else {
        ElementsEvenExactly(e, defs, rank, base, n - 1);
        LastElement(e, defs, rank, base, n);
      }
    }
  }

  /** The last of several elements is aligned with the first exactly when it lies a multiple of eight behind
      it, and with the second exactly when the element size is one. */
  lemma {:induction false} LastElement<N(!new)>(e: LType<N>, defs: Defs<N>, rank: map<N, nat>, base: int, n: nat)
    requires Ranked(defs, rank) && Layout(e, defs, rank).Ok? && n > 1
    ensures ElementsEven(n - 1, e, defs, rank, base)
            ==> (EightAligned(Leaves(e, defs, rank, base + Times(n - 1, SizeOf(e, defs, rank)))) <==> ElementsEven(n, e, defs, rank, base))
    ensures ElementsEven(n, e, defs, rank, base) ==> ElementsEven(n - 1, e, defs, rank, base)
    decreases Height(e, rank), e, 2, 0
  {
    if ElementsEven(n - 1, e, defs, rank, base) {
      var size := SizeOf(e, defs, rank);
      var at := Times(n - 1, size);
      LeavesEvenExactly(e, defs, rank, base);
      HoldsExactly(e, defs, rank, base);
      LeavesMove(e, defs, rank, base, at);
      MovedAligned(Leaves(e, defs, rank, base), Leaves(e, defs, rank, base + at), at);
      if size % 8 == 0 {
        MultipleOf(n - 1, size, 8);
        TimesIsProduct(n - 1, size);
      }
      TimesIsProduct(1, size);
    }
  }

  lemma {:induction false} FieldsEvenExactly<N(!new)>(fs: seq<LType<N>>, defs: Defs<N>, rank: map<N, nat>, base: int, n: nat)
    requires Ranked(defs, rank) && Layouts(fs, defs, rank).Ok? && n <= |fs|
    ensures EightAligned(FieldLeaves(fs, defs, rank, base, n)) <==> FieldsEven(fs, defs, rank, base, n)
    decreases HeightAll(fs, rank), fs, 0, n
  {
    if n > 0 {
      var at := base + FieldOffset(fs, defs, rank, n - 1);
      LayoutsAt(fs, defs, rank, n - 1);
      HeightPart(fs, rank, n - 1);
      FieldLeavesStep(fs, defs, rank, base, n);
      FieldsEvenExactly(fs, defs, rank, base, n - 1);
      LeavesEvenExactly(fs[n - 1], defs, rank, at);
      AlignedConcat(FieldLeaves(fs, defs, rank, base, n - 1), Leaves(fs[n - 1], defs, rank, at));
    }
  }

  // ----- every scalar but x86_fp80

  /** No floating-point type but those of at most eight bytes, or of a multiple of eight. */
  ghost predicate EvenFloats<N>(t: LType<N>)
    decreases t
  {
    match t
    case Float(bits) => FloatLayout(bits).align <= 8 || FloatLayout(bits).align % 8 == 0
    case Array(_, e) => EvenFloats(e)
    case Vector(_, e) => EvenFloats(e)
    case Struct(fs) => forall i :: 0 <= i < |fs| ==> EvenFloats(fs[i])
    case _ => true
  }

  ghost predicate EvenFloatDefs<N(!new)>(defs: Defs<N>) {
    forall n :: n in defs ==> EvenFloats(defs[n])
  }

  ghost predicate EvenLayout(sa: SizeAlign, pointer: bool) {
    && (sa.align <= 8 || sa.align % 8 == 0)
    && (pointer ==> sa.align >= 8 && sa.size % 8 == 0)
  }

  lemma {:induction false} EightDivides(x: int, a: nat)
    requires a >= 8 && a % 8 == 0 && x % a == 0
    ensures x % 8 == 0
  {
    var q := (a / 8) * (x / a);
    assert x == 8 * q by {
      assert x == a * (x / a) && a == 8 * (a / 8);
    }
  }

  lemma {:induction false} EvenStruct(sas: seq<SizeAlign>, pointer: bool)
    requires Aligned(sas) && forall i :: 0 <= i < |sas| ==> EvenLayout(sas[i], false)
    requires pointer ==> exists i :: 0 <= i < |sas| && EvenLayout(sas[i], true)
    ensures EvenLayout(StructOf(sas), pointer)
  {
    MaxAlignIsGreatest(sas);
    StructSizeMultiple(sas);
    if pointer {
      EightDivides(StructOf(sas).size, StructOf(sas).align);
    }
  }

  /** A type that holds a pointer has an alignment and a size that are multiples of eight. */
  lemma {:induction false} HolderIsEven<N(!new)>(t: LType<N>, defs: Defs<N>, rank: map<N, nat>)
    requires Ranked(defs, rank) && Layout(t, defs, rank).Ok? && EvenFloats(t) && EvenFloatDefs(defs)
    ensures EvenLayout(Layout(t, defs, rank).value, HoldsPtr(t, defs, rank))
    decreases Height(t, rank), t, 1, 0
  {
    match t
    case Array(count, e) => ElementsAreEven(count, e, defs, rank);
    case Vector(count, e) => ElementsAreEven(count, e, defs, rank);
    case Struct(fs) =>
      FieldsAreEven(fs, defs, rank, |fs|);
      EvenStruct(Layouts(fs, defs, rank).value, SomeHoldsPtr(fs, defs, rank, |fs|));
    case Named(n) => HolderIsEven(defs[n], defs, rank);
    case _ =>
  }

  lemma {:induction false} ElementsAreEven<N(!new)>(count: nat, e: LType<N>, defs: Defs<N>, rank: map<N, nat>)
    requires Ranked(defs, rank) && Layout(e, defs, rank).Ok? && EvenFloats(e) && EvenFloatDefs(defs)
    ensures var sa := Layout(e, defs, rank).value;
            EvenLayout(SizeAlign(Times(count, sa.size), sa.align), HoldsPtr(e, defs, rank))
    decreases Height(e, rank), e, 2, 0
  {
    var size := Layout(e, defs, rank).value.size;
    HolderIsEven(e, defs, rank);
    if size % 8 == 0 {
      CopiesOfUnit(count, size, 8);
    }
  }

  lemma {:induction false} FieldsAreEven<N(!new)>(fs: seq<LType<N>>, defs: Defs<N>, rank: map<N, nat>, n: nat)
    requires Ranked(defs, rank) && Layouts(fs, defs, rank).Ok? && n <= |fs|
    requires (forall i :: 0 <= i < |fs| ==> EvenFloats(fs[i])) && EvenFloatDefs(defs)
    ensures forall i :: 0 <= i < n ==> EvenLayout(Layouts(fs, defs, rank).value[i], false)
    ensures SomeHoldsPtr(fs, defs, rank, n) ==> exists i :: 0 <= i < n && EvenLayout(Layouts(fs, defs, rank).value[i], true)
    decreases HeightAll(fs, rank), fs, 0, n
  {
    if n > 0 {
      LayoutsAt(fs, defs, rank, n - 1);
      HeightPart(fs, rank, n - 1);
      FieldsAreEven(fs, defs, rank, n - 1);
      HolderIsEven(fs[n - 1], defs, rank);
    }
  }

  /** Without an x86_fp80, whatever the integers, every listed offset at an aligned base is a multiple of
      eight. */
  lemma {:induction false} EvenFloatsAligned<N(!new)>(t: LType<N>, defs: Defs<N>, rank: map<N, nat>, base: int)
    requires Ranked(defs, rank) && Layout(t, defs, rank).Ok? && EvenFloats(t) && EvenFloatDefs(defs) && base % 8 == 0
    ensures EightAligned(Leaves(t, defs, rank, base))
    decreases Height(t, rank), t, 1, 0
  {
    match t
    case Array(count, e) => EvenElementsAligned(e, defs, rank, base, count);
    case Vector(count, e) => EvenElementsAligned(e, defs, rank, base, count);
    case Struct(fs) => EvenFieldsAligned(fs, defs, rank, base, |fs|);
    case Named(n) => EvenFloatsAligned(defs[n], defs, rank, base);
    case _ =>
  }

  lemma {:induction false} EvenElementsAligned<N(!new)>(e: LType<N>, defs: Defs<N>, rank: map<N, nat>, base: int, n: nat)
    requires Ranked(defs, rank) && Layout(e, defs, rank).Ok? && EvenFloats(e) && EvenFloatDefs(defs) && base % 8 == 0
    ensures EightAligned(ElementLeaves(e, defs, rank, base, n))
    decreases Height(e, rank), e, 2, 0
  {
    EvenFloatsAligned(e, defs, rank, base);
    LeavesEvenExactly(e, defs, rank, base);
    HolderIsEven(e, defs, rank);
    ElementsEvenExactly(e, defs, rank, base, n);
  }

  lemma {:induction false} EvenFieldsAligned<N(!new)>(fs: seq<LType<N>>, defs: Defs<N>, rank: map<N, nat>, base: int, n: nat)
    requires Ranked(defs, rank) && Layouts(fs, defs, rank).Ok? && n <= |fs| && base % 8 == 0
    requires (forall i :: 0 <= i < |fs| ==> EvenFloats(fs[i])) && EvenFloatDefs(defs)
    ensures EightAligned(FieldLeaves(fs, defs, rank, base, n))
    decreases HeightAll(fs, rank), fs, 0, n
  {
    if n > 0 {
      LayoutsAt(fs, defs, rank, n - 1);
      HeightPart(fs, rank, n - 1);
      FieldLeavesStep(fs, defs, rank, base, n);
      EvenFieldsAligned(fs, defs, rank, base, n - 1);
      EvenField(fs, defs, rank, base, n - 1);
      AlignedConcat(FieldLeaves(fs, defs, rank, base, n - 1), Leaves(fs[n - 1], defs, rank, base + FieldOffset(fs, defs, rank, n - 1)));
    }
  }

  lemma {:induction false} EvenField<N(!new)>(fs: seq<LType<N>>, defs: Defs<N>, rank: map<N, nat>, base: int, i: nat)
    requires Ranked(defs, rank) && Layouts(fs, defs, rank).Ok? && i < |fs| && Layout(fs[i], defs, rank).Ok? && base % 8 == 0
    requires EvenFloats(fs[i]) && EvenFloatDefs(defs)
    ensures EightAligned(Leaves(fs[i], defs, rank, base + FieldOffset(fs, defs, rank, i)))
    decreases HeightAll(fs, rank), fs, 0, 0
  {
    var sas, at := Layouts(fs, defs, rank).value, FieldOffset(fs, defs, rank, i);
    LayoutsAt(fs, defs, rank, i);
    HeightPart(fs, rank, i);
    HolderIsEven(fs[i], defs, rank);
    HoldsExactly(fs[i], defs, rank, base + at);
    if HoldsPtr(fs[i], defs, rank) {
      PadIsLeast(End(sas[..i]), sas[i].align);
      EightDivides(at, sas[i].align);
      EvenFloatsAligned(fs[i], defs, rank, base + at);
    }
  }

  // ----- the scalar that breaks it

  lemma {:induction false} LastAdded(sas: seq<SizeAlign>, last: SizeAlign)
    requires Aligned(sas) && last.align >= 1
    ensures End(sas + [last]) == Pad(End(sas), last.align) + last.size
    ensures MaxAlign(sas + [last]) == if last.align > MaxAlign(sas) then last.align else MaxAlign(sas)
  {
    var all := sas + [last];
    assert all[..|all| - 1] == sas && all[|all| - 1] == last;
  }

  lemma {:induction false} LastLayout<N(!new)>(fs: seq<LType<N>>, defs: Defs<N>, rank: map<N, nat>, sas: seq<SizeAlign>, sa: SizeAlign)
    requires Ranked(defs, rank) && fs != [] && Layouts(fs[..|fs| - 1], defs, rank) == Ok(sas)
    requires Layout(fs[|fs| - 1], defs, rank) == Ok(sa)
    ensures Layouts(fs, defs, rank) == Ok(sas + [sa])
  {
  }

  lemma {:induction false} FirstLayout<N(!new)>(fs: seq<LType<N>>, defs: Defs<N>, rank: map<N, nat>)
    requires Ranked(defs, rank) && |fs| == 1 && Layout(fs[0], defs, rank).Ok?
    ensures Layouts(fs, defs, rank) == Ok([Layout(fs[0], defs, rank).value])
  {
    var sa := Layout(fs[0], defs, rank).value;
    LastLayout(fs, defs, rank, [], sa);
    assert [] + [sa] == [sa];
  }

  lemma {:induction false} LongPads()
    ensures Pad(0, 10) == 0 && Pad(10, 8) == 16 && Pad(24, 10) == 30
  {
  }

  /** A field of 80 bits, size and alignment 10, in front of a pointer. */
  lemma {:induction false} LongPair(pair: seq<SizeAlign>)
    requires pair == [SizeAlign(10, 10)] + [SizeAlign(8, 8)]
    ensures OffsetAt(pair, 1) == 16 && StructOf(pair) == SizeAlign(30, 10)
  {
    var one := [SizeAlign(10, 10)];
    LongPads();
    LastAdded([], one[0]);
    LastAdded(one, SizeAlign(8, 8));
    assert [] + one == one && pair[..1] == one;
  }

  lemma {:induction false} LongLayouts<N(!new)>(fs: seq<LType<N>>, defs: Defs<N>, rank: map<N, nat>)
    requires Ranked(defs, rank) && |fs| == 2 && fs[0] == Float(80) && fs[1] == Ptr
    ensures Layouts(fs, defs, rank) == Ok([SizeAlign(10, 10)] + [SizeAlign(8, 8)])
  {
    FirstLayout(fs[..1], defs, rank);
    LastLayout(fs, defs, rank, [SizeAlign(10, 10)], SizeAlign(8, 8));
  }

  lemma {:induction false} LongLeaves<N(!new)>(fs: seq<LType<N>>, defs: Defs<N>, rank: map<N, nat>, base: int)
    requires Ranked(defs, rank) && fs == [Float(80), Ptr]
    ensures Layout(Struct(fs), defs, rank) == Ok(SizeAlign(30, 10)) && Leaves(Struct(fs), defs, rank, base) == [base + 16]
  {
    LongLayouts(fs, defs, rank);
    LongPair(Layouts(fs, defs, rank).value);
    LayoutsAt(fs, defs, rank, 0);
    LayoutsAt(fs, defs, rank, 1);
    FieldLeavesStep(fs, defs, rank, base, 1);
    FieldLeavesStep(fs, defs, rank, base, 2);
    assert FieldLeaves(fs, defs, rank, base, 1) == [];
  }

  /** Two structs of an x86_fp80 and a pointer: the size of 30 puts the second pointer at 46. */
  lemma {:induction false} LongDoubleOffEight<N(!new)>(defs: Defs<N>, rank: map<N, nat>)
    requires Ranked(defs, rank)
    ensures var t: LType<N> := Array(2, Struct([Float(80), Ptr]));
            Layout(t, defs, rank).Ok? && Leaves(t, defs, rank, 0) == [16, 46]
  {
    var e: LType<N> := Struct([Float(80), Ptr]);
    LongLeaves(e.fields, defs, rank, 0);
    LongLeaves(e.fields, defs, rank, 30);
    assert ElementLeaves(e, defs, rank, 0, 1) == [] + Leaves(e, defs, rank, 0);
    assert Times(1, 30) == 30;
  }
}
