/** Sizes and alignments of LLVM types, compiler/harness/llvm_ir.py: the memoising `size_align` with
    its placeholder, against cache-free recursion. */
module TypeLayout {
  import opened Arithmetic
  import opened Graphs
  import opened StructLayout

  datatype LType<N> =
    | Ptr
    | Void
    | Int(bits: nat)
    | Float(bits: nat)
    | Array(count: nat, element: LType<N>)
    | Vector(count: nat, element: LType<N>)
    | Struct(fields: seq<LType<N>>)
    | Named(name: N)

  type Defs<N(==)> = map<N, LType<N>>

  /** A value, or the ValueError for a name without a definition. */
  datatype Result<T, N> = Ok(value: T) | Undefined(name: N)

  // ----- which names a type mentions by value, and ranks of acyclic definitions

  function Mentions<N>(t: LType<N>): seq<N>
    decreases t, 1
  {
    match t
    case Named(n) => [n]
    case Array(_, e) => Mentions(e)
    case Vector(_, e) => Mentions(e)
    case Struct(fs) => MentionsAll(fs)
    case _ => []
  }

  function MentionsAll<N>(fs: seq<LType<N>>): seq<N>
    decreases fs, 0
  {
    if fs == [] then [] else MentionsAll(fs[..|fs| - 1]) + Mentions(fs[|fs| - 1])
  }

  function DefGraph<N(==)>(defs: Defs<N>): Graph<N> {
    map n | n in defs :: Mentions(defs[n])
  }

  ghost function Height<N>(t: LType<N>, rank: map<N, nat>): nat
    decreases t, 1
  {
    match t
    case Named(n) => if n in rank then rank[n] + 1 else 0
    case Array(_, e) => Height(e, rank)
    case Vector(_, e) => Height(e, rank)
    case Struct(fs) => HeightAll(fs, rank)
    case _ => 0
  }

  ghost function HeightAll<N>(fs: seq<LType<N>>, rank: map<N, nat>): nat
    decreases fs, 0
  {
    if fs == [] then 0
    else
      var a, b := HeightAll(fs[..|fs| - 1], rank), Height(fs[|fs| - 1], rank);
      if a > b then a else b
  }

  /** Every definition mentions only names of smaller rank. */
  ghost predicate Ranked<N(!new)>(defs: Defs<N>, rank: map<N, nat>) {
    rank.Keys == defs.Keys && forall n :: n in defs ==> Height(defs[n], rank) <= rank[n]
  }

  lemma {:induction false} HeightBound<N>(t: LType<N>, rank: map<N, nat>, h: nat)
    requires forall m :: m in Mentions(t) && m in rank ==> rank[m] < h
    ensures Height(t, rank) <= h
    decreases t, 1
  {
    match t
    case Named(n) =>
      assert n in Mentions(t);
    case Array(_, e) => HeightBound(e, rank, h);
    case Vector(_, e) => HeightBound(e, rank, h);
    case Struct(fs) => HeightAllBound(fs, rank, h);
    case _ =>
  }

  lemma {:induction false} HeightAllBound<N>(fs: seq<LType<N>>, rank: map<N, nat>, h: nat)
    requires forall m :: m in MentionsAll(fs) && m in rank ==> rank[m] < h
    ensures HeightAll(fs, rank) <= h
    decreases fs, 0
  {
    if fs != [] {
      HeightAllBound(fs[..|fs| - 1], rank, h);
      HeightBound(fs[|fs| - 1], rank, h);
    }
  }

  lemma {:induction false} AcyclicIsRanked<N(!new)>(defs: Defs<N>) returns (rank: map<N, nat>)
    requires Acyclic(DefGraph(defs))
    ensures Ranked(defs, rank)
  {
    var g := DefGraph(defs);
    rank := AcyclicHasRanks(g);
    forall n | n in defs ensures Height(defs[n], rank) <= rank[n] {
      forall m | m in Mentions(defs[n]) && m in rank ensures rank[m] < rank[n] {
        assert Edge(g, n, m);
      }
      HeightBound(defs[n], rank, rank[n]);
    }
  }

  // ----- cache-free recursion

  function IntLayout(bits: nat): SizeAlign {
    var size := if (bits + 7) / 8 < 1 then 1 else (bits + 7) / 8;
    if bits > 64 then SizeAlign((bits + 7) / 8, 16) else SizeAlign(size, if size < 8 then size else 8)
  }

  function FloatLayout(bits: nat): SizeAlign {
    var size := if (bits + 7) / 8 < 1 then 1 else (bits + 7) / 8;
    SizeAlign(size, size)
  }

  function Repeated<N>(count: nat, r: Result<SizeAlign, N>): Result<SizeAlign, N> {
    if r.Ok? then Ok(SizeAlign(Times(count, r.value.size), r.value.align)) else r
  }

  ghost function Layout<N(!new)>(t: LType<N>, defs: Defs<N>, rank: map<N, nat>): (r: Result<SizeAlign, N>)
    requires Ranked(defs, rank)
    ensures r.Ok? ==> r.value.align >= 1
    decreases Height(t, rank), t, 1
  {
    match t
    case Ptr => Ok(SizeAlign(8, 8))
    case Void => Ok(SizeAlign(0, 1))
    case Int(bits) => Ok(IntLayout(bits))
    case Float(bits) => Ok(FloatLayout(bits))
    case Array(count, e) => Repeated(count, Layout(e, defs, rank))
    case Vector(count, e) => Repeated(count, Layout(e, defs, rank))
    case Struct(fs) =>
      var sas := Layouts(fs, defs, rank);
      if sas.Undefined? then Undefined(sas.name)
      else
        MaxAlignIsGreatest(sas.value);
        Ok(StructOf(sas.value))
    case Named(n) => if n in defs then Layout(defs[n], defs, rank) else Undefined(n)
  }

  ghost function Layouts<N(!new)>(fs: seq<LType<N>>, defs: Defs<N>, rank: map<N, nat>): (r: Result<seq<SizeAlign>, N>)
    requires Ranked(defs, rank)
    ensures r.Ok? ==> |r.value| == |fs| && Aligned(r.value)
    decreases HeightAll(fs, rank), fs, 0
  {
    if fs == [] then Ok([])
    else
      var front := Layouts(fs[..|fs| - 1], defs, rank);
      if front.Undefined? then front
      else
        var last := Layout(fs[|fs| - 1], defs, rank);
        if last.Undefined? then Undefined(last.name) else Ok(front.value + [last.value])
  }

  // ----- the shared cache

  /** The dictionary that one top-level call shares; `open` are the names that still hold the
      placeholder. */
  class Cache<N(==, !new)> {
    var entries: map<N, SizeAlign>
    ghost var open: set<N>

    constructor ()
      ensures entries == map[] && open == {}
    {
      entries, open := map[], {};
    }
  }

  const PLACEHOLDER := SizeAlign(0, 1)

  /** Every finished entry holds the layout of its name. */
  ghost predicate Sound<N(!new)>(entries: map<N, SizeAlign>, open: set<N>, defs: Defs<N>, rank: map<N, nat>)
    requires Ranked(defs, rank)
  {
    forall n :: n in entries && n !in open ==> n in defs && Layout(Named(n), defs, rank) == Ok(entries[n])
  }

  /** The type lies below every open name, so it cannot lead back to a placeholder. */
  ghost predicate Below<N(!new)>(h: nat, open: set<N>, rank: map<N, nat>) {
    forall p :: p in open ==> p in rank && h <= rank[p]
  }

  /** `size_align`: the same answer as cache-free recursion; a cache entry that is read is never the
      placeholder of an open name. */
  method SizeAlignOf<N(==, !new)>(t: LType<N>, defs: Defs<N>, cache: Cache<N>, ghost rank: map<N, nat>)
    returns (r: Result<SizeAlign, N>)
    requires Ranked(defs, rank) && Sound(cache.entries, cache.open, defs, rank)
    requires Below(Height(t, rank), cache.open, rank)
    modifies cache
    ensures r == Layout(t, defs, rank)
    ensures r.Ok? ==> Sound(cache.entries, cache.open, defs, rank) && cache.open == old(cache.open)
    decreases Height(t, rank), t, 1
  {
    match t
    case Ptr => r := Ok(SizeAlign(8, 8));
    case Void => r := Ok(SizeAlign(0, 1));
    case Int(bits) => r := Ok(IntLayout(bits));
    case Float(bits) => r := Ok(FloatLayout(bits));
    case Array(count, e) =>
      r := SizeAlignOf(e, defs, cache, rank);
      if r.Ok? {
        TimesIsProduct(count, r.value.size);
        r := Ok(SizeAlign(count * r.value.size, r.value.align));
      }
    case Vector(count, e) =>
      r := SizeAlignOf(e, defs, cache, rank);
      if r.Ok? {
        TimesIsProduct(count, r.value.size);
        r := Ok(SizeAlign(count * r.value.size, r.value.align));
      }
    case Struct(fs) => r := StructSizeAlign(fs, defs, cache, rank);
    case Named(n) => r := NamedSizeAlign(n, defs, cache, rank);
  }

  method NamedSizeAlign<N(==, !new)>(n: N, defs: Defs<N>, cache: Cache<N>, ghost rank: map<N, nat>)
    returns (r: Result<SizeAlign, N>)
    requires Ranked(defs, rank) && Sound(cache.entries, cache.open, defs, rank)
    requires Below(Height(Named(n), rank), cache.open, rank)
    modifies cache
    ensures r == Layout(Named(n), defs, rank)
    ensures r.Ok? ==> Sound(cache.entries, cache.open, defs, rank) && cache.open == old(cache.open)
    decreases Height(Named(n), rank), Named(n), 0
  {
    if n in cache.entries {
      assert n !in cache.open;
      r := Ok(cache.entries[n]);
    } else if n !in defs {
      r := Undefined(n);
    } else {
      assert Height(defs[n], rank) <= rank[n];
      cache.entries := cache.entries[n := PLACEHOLDER];
      cache.open := cache.open + {n};
      r := SizeAlignOf(defs[n], defs, cache, rank);
      if r.Ok? {
        cache.entries := cache.entries[n := r.value];
        cache.open := cache.open - {n};
      }
    }
  }

  /** The first i fields: their layouts, the offset behind them and their greatest alignment. */
  ghost predicate SizedTo<N(!new)>(fs: seq<LType<N>>, defs: Defs<N>, rank: map<N, nat>, i: nat, sas: seq<SizeAlign>, offset: int, maxAlign: int)
    requires Ranked(defs, rank) && i <= |fs|
  {
    Layouts(fs[..i], defs, rank) == Ok(sas) && Aligned(sas) && offset == End(sas) && maxAlign == MaxAlign(sas)
  }

  method StructSizeAlign<N(==, !new)>(fs: seq<LType<N>>, defs: Defs<N>, cache: Cache<N>, ghost rank: map<N, nat>)
    returns (r: Result<SizeAlign, N>)
    requires Ranked(defs, rank) && Sound(cache.entries, cache.open, defs, rank)
    requires Below(HeightAll(fs, rank), cache.open, rank)
    modifies cache
    ensures r == Layout(Struct(fs), defs, rank)
    ensures r.Ok? ==> Sound(cache.entries, cache.open, defs, rank) && cache.open == old(cache.open)
    decreases HeightAll(fs, rank), fs, 0
  {
    var maxAlign, offset := 1, 0;
    ghost var sas: seq<SizeAlign> := [];
    for i := 0 to |fs|
      invariant Sound(cache.entries, cache.open, defs, rank) && cache.open == old(cache.open)
      invariant SizedTo(fs, defs, rank, i, sas, offset, maxAlign)
    {
      HeightPart(fs, rank, i);
      var field := SizeAlignOf(fs[i], defs, cache, rank);
      if field.Undefined? {
        FieldUndefined(fs, defs, rank, i);
        return Undefined(field.name);
      }
      NextLayout(fs, defs, rank, i, sas, field.value);
      sas := sas + [field.value];
      maxAlign := if field.value.align > maxAlign then field.value.align else maxAlign;
      offset := PadStep(offset, field.value.align);
      offset := offset + field.value.size;
    }
    assert fs[..|fs|] == fs;
    MaxAlignIsGreatest(sas);
    offset := PadStep(offset, maxAlign);
    r := Ok(SizeAlign(offset, maxAlign));
  }

  lemma {:induction false} NextLayout<N(!new)>(fs: seq<LType<N>>, defs: Defs<N>, rank: map<N, nat>, i: nat, sas: seq<SizeAlign>, sa: SizeAlign)
    requires Ranked(defs, rank) && i < |fs| && Layouts(fs[..i], defs, rank) == Ok(sas)
    requires Layout(fs[i], defs, rank) == Ok(sa)
    ensures fs[..i + 1] == fs[..i] + [fs[i]] && Layouts(fs[..i + 1], defs, rank) == Ok(sas + [sa])
    ensures Aligned(sas) && Aligned(sas + [sa]) && End(sas + [sa]) == Pad(End(sas), sa.align) + sa.size
    ensures MaxAlign(sas + [sa]) == if sa.align > MaxAlign(sas) then sa.align else MaxAlign(sas)
  {
    assert fs[..i + 1][..i] == fs[..i] && (sas + [sa])[..|sas|] == sas;
  }

  lemma {:induction false} HeightPart<N>(fs: seq<LType<N>>, rank: map<N, nat>, i: nat)
    requires i < |fs|
    ensures Height(fs[i], rank) <= HeightAll(fs, rank)
  {
    if i < |fs| - 1 {
      HeightPart(fs[..|fs| - 1], rank, i);
    }
  }

  lemma {:induction false} FieldUndefined<N(!new)>(fs: seq<LType<N>>, defs: Defs<N>, rank: map<N, nat>, i: nat)
    requires Ranked(defs, rank) && i < |fs| && Layouts(fs[..i], defs, rank).Ok? && Layout(fs[i], defs, rank).Undefined?
    ensures Layouts(fs, defs, rank) == Undefined(Layout(fs[i], defs, rank).name)
    decreases |fs|
  {
    if i < |fs| - 1 {
      assert fs[..|fs| - 1][..i] == fs[..i];
      FieldUndefined(fs[..|fs| - 1], defs, rank, i);
    }
  }

  /** The layout does not depend on the ranking that proves termination. */
  lemma {:induction false} LayoutRankFree<N(!new)>(t: LType<N>, defs: Defs<N>, rank: map<N, nat>, other: map<N, nat>)
    requires Ranked(defs, rank) && Ranked(defs, other)
    ensures Layout(t, defs, rank) == Layout(t, defs, other)
    decreases Height(t, rank), t, 1
  {
    match t
    case Array(_, e) => LayoutRankFree(e, defs, rank, other);
    case Vector(_, e) => LayoutRankFree(e, defs, rank, other);
    case Struct(fs) => LayoutsRankFree(fs, defs, rank, other);
    case Named(n) =>
      if n in defs {
        LayoutRankFree(defs[n], defs, rank, other);
      }
    case _ =>
  }

  lemma {:induction false} LayoutsRankFree<N(!new)>(fs: seq<LType<N>>, defs: Defs<N>, rank: map<N, nat>, other: map<N, nat>)
    requires Ranked(defs, rank) && Ranked(defs, other)
    ensures Layouts(fs, defs, rank) == Layouts(fs, defs, other)
    decreases HeightAll(fs, rank), fs, 0
  {
    if fs != [] {
      LayoutsRankFree(fs[..|fs| - 1], defs, rank, other);
      LayoutRankFree(fs[|fs| - 1], defs, rank, other);
    }
  }

  // ----- what a layout is

  /** The least number of bytes that hold the bits. */
  predicate LeastBytes(bits: nat, size: nat) {
    bits <= 8 * size < bits + 8
  }

  predicate LeastMultiple(x: nat, a: nat, y: nat) {
    a >= 1 && y % a == 0 && x <= y < x + a
  }

  /** Fields at their offsets: each at the least multiple of its alignment behind the field before. */
  predicate Tight(sas: seq<SizeAlign>, offsets: seq<nat>) {
    |offsets| == |sas| && forall i :: 0 <= i < |sas| ==> TightAt(sas, offsets, i)
  }

  predicate TightAt(sas: seq<SizeAlign>, offsets: seq<nat>, i: nat)
    requires i < |offsets| == |sas|
  {
    LeastMultiple(if i == 0 then 0 else offsets[i - 1] + sas[i - 1].size, sas[i].align, offsets[i])
  }

  predicate Greatest(sas: seq<SizeAlign>, align: nat) {
    && align >= 1
    && (forall i :: 0 <= i < |sas| ==> sas[i].align <= align)
    && (align == 1 || exists i :: 0 <= i < |sas| && sas[i].align == align)
  }

  /** The alignment is the greatest of the fields, the size the least multiple of it behind the last field. */
  ghost predicate StructMeans(sas: seq<SizeAlign>, sa: SizeAlign) {
    && Greatest(sas, sa.align)
    && exists offsets :: Tight(sas, offsets)
                      && LeastMultiple(if sas == [] then 0 else offsets[|sas| - 1] + sas[|sas| - 1].size, sa.align, sa.size)
  }

  /** Pointers take eight bytes; integers and floats the least number of bytes, to which they are aligned, or to
      sixteen beyond 64 bits for an integer; the other types follow from their parts. */
  ghost predicate Means<N(!new)>(t: LType<N>, defs: Defs<N>, rank: map<N, nat>, r: Result<SizeAlign, N>)
    requires Ranked(defs, rank)
  {
    match t
    case Ptr => r == Ok(SizeAlign(8, 8))
    case Void => r == Ok(SizeAlign(0, 1))
    case Int(bits) =>
      r.Ok? && LeastBytes(if bits == 0 then 1 else bits, r.value.size) && r.value.align == if bits > 64 then 16 else r.value.size
    case Float(bits) =>
      r.Ok? && LeastBytes(if bits == 0 then 1 else bits, r.value.size) && r.value.align == r.value.size
    case Array(count, e) => MeansCopies(count, Layout(e, defs, rank), r)
    case Vector(count, e) => MeansCopies(count, Layout(e, defs, rank), r)
    case Struct(fs) =>
      if r.Ok? then exists sas :: LaidOut(fs, sas, defs, rank) && StructMeans(sas, r.value)
      else exists i :: 0 <= i < |fs| && FirstUndefined(fs, defs, rank, i, r.name)
    case Named(n) => r == if n in defs then Layout(defs[n], defs, rank) else Undefined(n)
  }

  predicate MeansCopies<N(==)>(count: nat, e: Result<SizeAlign, N>, r: Result<SizeAlign, N>) {
    if e.Ok? then r == Ok(SizeAlign(count * e.value.size, e.value.align)) else r == e
  }

  ghost predicate LaidOut<N(!new)>(fs: seq<LType<N>>, sas: seq<SizeAlign>, defs: Defs<N>, rank: map<N, nat>)
    requires Ranked(defs, rank)
  {
    |sas| == |fs| && forall i :: 0 <= i < |fs| ==> Layout(fs[i], defs, rank) == Ok(sas[i])
  }

  ghost predicate FirstUndefined<N(!new)>(fs: seq<LType<N>>, defs: Defs<N>, rank: map<N, nat>, i: nat, n: N)
    requires Ranked(defs, rank) && i < |fs|
  {
    Layout(fs[i], defs, rank) == Undefined(n) && forall k :: 0 <= k < i ==> Layout(fs[k], defs, rank).Ok?
  }

  lemma {:induction false} EndsTight(sas: seq<SizeAlign>, n: nat) returns (offsets: seq<nat>)
    requires Aligned(sas) && n <= |sas|
    ensures Tight(sas[..n], offsets) && End(sas[..n]) == if n == 0 then 0 else offsets[n - 1] + sas[n - 1].size
  {
    if n == 0 {
      offsets := [];
    } else {
      var front := EndsTight(sas, n - 1);
      offsets := front + [Pad(End(sas[..n - 1]), sas[n - 1].align)];
      assert sas[..n][..n - 1] == sas[..n - 1];
      PadIsLeast(End(sas[..n - 1]), sas[n - 1].align);
      TightNext(sas[..n - 1], front, sas[n - 1], offsets[n - 1]);
      assert sas[..n] == sas[..n - 1] + [sas[n - 1]];
    }
  }

  lemma {:induction false} TightNext(sas: seq<SizeAlign>, offsets: seq<nat>, sa: SizeAlign, y: nat)
    requires Tight(sas, offsets)
    requires LeastMultiple(if sas == [] then 0 else offsets[|sas| - 1] + sas[|sas| - 1].size, sa.align, y)
    ensures Tight(sas + [sa], offsets + [y])
  {
    forall i | 0 <= i < |sas|
      ensures TightAt(sas + [sa], offsets + [y], i)
    {
      assert TightAt(sas, offsets, i);
    }
    assert TightAt(sas + [sa], offsets + [y], |sas|);
  }

  lemma {:induction false} StructOfMeans(sas: seq<SizeAlign>)
    requires Aligned(sas)
    ensures StructMeans(sas, StructOf(sas))
  {
    MaxAlignIsGreatest(sas);
    var offsets := EndsTight(sas, |sas|);
    assert sas[..|sas|] == sas;
    PadIsLeast(End(sas), MaxAlign(sas));
    assert Tight(sas, offsets);
  }

  lemma {:induction false} FindUndefined<N(!new)>(fs: seq<LType<N>>, defs: Defs<N>, rank: map<N, nat>) returns (i: nat)
    requires Ranked(defs, rank) && Layouts(fs, defs, rank).Undefined?
    ensures i < |fs| && FirstUndefined(fs, defs, rank, i, Layouts(fs, defs, rank).name)
    decreases |fs|
  {
    var front := fs[..|fs| - 1];
    if Layouts(front, defs, rank).Undefined? {
      i := FindUndefined(front, defs, rank);
      forall k | 0 <= k < i ensures Layout(fs[k], defs, rank).Ok? {
        assert front[k] == fs[k];
      }
    } else {
      i := |fs| - 1;
      forall k | 0 <= k < i ensures Layout(fs[k], defs, rank).Ok? {
        LayoutsAt(front, defs, rank, k);
      }
    }
  }

  lemma {:induction false} IntMeans(bits: nat)
    ensures var sa := IntLayout(bits);
            LeastBytes(if bits == 0 then 1 else bits, sa.size) && sa.align == if bits > 64 then 16 else sa.size
  {
  }

  lemma {:induction false} StructLaidOut<N(!new)>(fs: seq<LType<N>>, defs: Defs<N>, rank: map<N, nat>)
    requires Ranked(defs, rank)
    ensures Means(Struct(fs), defs, rank, Layout(Struct(fs), defs, rank))
  {
    var sas := Layouts(fs, defs, rank);
    if sas.Undefined? {
      var i := FindUndefined(fs, defs, rank);
    } else {
      forall i | 0 <= i < |fs| ensures Layout(fs[i], defs, rank) == Ok(sas.value[i]) {
        LayoutsAt(fs, defs, rank, i);
      }
      StructOfMeans(sas.value);
      assert LaidOut(fs, sas.value, defs, rank);
    }
  }

  /** Cache-free recursion computes what the predicate says. */
  lemma {:induction false} LayoutMeans<N(!new)>(t: LType<N>, defs: Defs<N>, rank: map<N, nat>)
    requires Ranked(defs, rank)
    ensures Means(t, defs, rank, Layout(t, defs, rank))
  {
    match t
    case Int(bits) => IntMeans(bits);
    case Array(count, e) =>
      if Layout(e, defs, rank).Ok? { TimesIsProduct(count, Layout(e, defs, rank).value.size); }
    case Vector(count, e) =>
      if Layout(e, defs, rank).Ok? { TimesIsProduct(count, Layout(e, defs, rank).value.size); }
    case Struct(fs) => StructLaidOut(fs, defs, rank);
    case _ =>
  }

  /** A top-level call on acyclic definitions. */
  method TypeSizeAlign<N(==, !new)>(t: LType<N>, defs: Defs<N>) returns (r: Result<SizeAlign, N>)
    requires Acyclic(DefGraph(defs))
    ensures forall rank :: Ranked(defs, rank) ==> r == Layout(t, defs, rank) && Means(t, defs, rank, r)
  {
    ghost var rank := AcyclicIsRanked(defs);
    var cache := new Cache();
    r := SizeAlignOf(t, defs, cache, rank);
    forall other | Ranked(defs, other) ensures r == Layout(t, defs, other) && Means(t, defs, other, r) {
      LayoutRankFree(t, defs, rank, other);
      LayoutMeans(t, defs, other);
    }
  }

  // ----- struct_field_layout

  datatype Placement<N> = Placement(offset: nat, size: nat, ty: LType<N>)

  ghost predicate PlacedFields<N(!new)>(fs: seq<LType<N>>, sas: seq<SizeAlign>, ps: seq<Placement<N>>) {
    && |sas| == |fs| && |ps| == |fs| && Aligned(sas)
    && forall i :: 0 <= i < |fs| ==> ps[i] == Placement(OffsetAt(sas, i), sas[i].size, fs[i])
  }

  lemma {:induction false} PlaceOneMore<N(!new)>(fs: seq<LType<N>>, sas: seq<SizeAlign>, ps: seq<Placement<N>>, t: LType<N>, sa: SizeAlign)
    requires PlacedFields(fs, sas, ps) && sa.align >= 1
    ensures PlacedFields(fs + [t], sas + [sa], ps + [Placement(Pad(End(sas), sa.align), sa.size, t)])
    ensures End(sas + [sa]) == Pad(End(sas), sa.align) + sa.size
  {
    var more := sas + [sa];
    assert more[..|sas|] == sas;
    forall i | 0 <= i < |fs| ensures OffsetAt(more, i) == OffsetAt(sas, i) {
      assert more[..i] == sas[..i];
    }
  }

  lemma {:induction false} NextPlacement<N(!new)>(fs: seq<LType<N>>, defs: Defs<N>, rank: map<N, nat>, i: nat,
                                                  sas: seq<SizeAlign>, ps: seq<Placement<N>>, sa: SizeAlign)
    requires Ranked(defs, rank) && i < |fs| && Layouts(fs[..i], defs, rank) == Ok(sas)
    requires PlacedFields(fs[..i], sas, ps) && Layout(fs[i], defs, rank) == Ok(sa)
    ensures sa.align >= 1 && Layouts(fs[..i + 1], defs, rank) == Ok(sas + [sa])
    ensures PlacedFields(fs[..i + 1], sas + [sa], ps + [Placement(Pad(End(sas), sa.align), sa.size, fs[i])])
    ensures End(sas + [sa]) == Pad(End(sas), sa.align) + sa.size
  {
    NextLayout(fs, defs, rank, i, sas, sa);
    PlaceOneMore(fs[..i], sas, ps, fs[i], sa);
  }

  /** `struct_field_layout`: each field at its offset in the struct layout. */
  method FieldLayout<N(==, !new)>(fs: seq<LType<N>>, defs: Defs<N>, ghost rank: map<N, nat>)
    returns (r: Result<seq<Placement<N>>, N>, ghost sas: seq<SizeAlign>)
    requires Ranked(defs, rank)
    ensures r.Ok? ==> Layouts(fs, defs, rank) == Ok(sas) && PlacedFields(fs, sas, r.value)
    ensures r.Undefined? ==> Layouts(fs, defs, rank) == Undefined(r.name)
  {
    var cache := new Cache();
    var offset := 0;
    var result: seq<Placement<N>> := [];
    sas := [];
    for i := 0 to |fs|
      invariant fresh(cache) && Sound(cache.entries, cache.open, defs, rank) && cache.open == {}
      invariant Layouts(fs[..i], defs, rank) == Ok(sas) && PlacedFields(fs[..i], sas, result)
      invariant offset == End(sas)
    {
      var field := SizeAlignOf(fs[i], defs, cache, rank);
      if field.Undefined? {
        FieldUndefined(fs, defs, rank, i);
        return Undefined(field.name), sas;
      }
      NextPlacement(fs, defs, rank, i, sas, result, field.value);
      offset := PadStep(offset, field.value.align);
      result := result + [Placement(offset, field.value.size, fs[i])];
      offset := offset + field.value.size;
      sas := sas + [field.value];
    }
    assert fs[..|fs|] == fs;
    r := Ok(result);
  }

  /** Aligned, ordered, disjoint, and inside the size that `struct_size_align` computes. */
  lemma {:induction false} FieldLayoutFits<N(!new)>(fs: seq<LType<N>>, sas: seq<SizeAlign>, ps: seq<Placement<N>>,
                                 defs: Defs<N>, rank: map<N, nat>, i: nat)
    requires Ranked(defs, rank) && Layouts(fs, defs, rank) == Ok(sas) && PlacedFields(fs, sas, ps) && i < |fs|
    ensures Layout(fs[i], defs, rank) == Ok(sas[i])
    ensures LeastMultiple(if i == 0 then 0 else ps[i - 1].offset + ps[i - 1].size, sas[i].align, ps[i].offset)
    ensures forall j :: i < j < |fs| ==> ps[i].offset + ps[i].size <= ps[j].offset
    ensures Layout(Struct(fs), defs, rank).Ok?
    ensures ps[i].offset + ps[i].size <= Layout(Struct(fs), defs, rank).value.size
  {
    FieldsFit(sas, i);
    LayoutsAt(fs, defs, rank, i);
    OffsetLeast(sas, i);
  }

  lemma {:induction false} OffsetLeast(sas: seq<SizeAlign>, i: nat)
    requires Aligned(sas) && i < |sas|
    ensures LeastMultiple(if i == 0 then 0 else OffsetAt(sas, i - 1) + sas[i - 1].size, sas[i].align, OffsetAt(sas, i))
  {
    PadIsLeast(End(sas[..i]), sas[i].align);
    if i > 0 {
      assert sas[..i][..i - 1] == sas[..i - 1];
    }
  }

  lemma {:induction false} LayoutsAt<N(!new)>(fs: seq<LType<N>>, defs: Defs<N>, rank: map<N, nat>, i: nat)
    requires Ranked(defs, rank) && Layouts(fs, defs, rank).Ok? && i < |fs|
    ensures Layout(fs[i], defs, rank) == Ok(Layouts(fs, defs, rank).value[i])
    decreases |fs|
  {
    if i < |fs| - 1 {
      LayoutsAt(fs[..|fs| - 1], defs, rank, i);
    }
  }

  // ----- power-of-two scalars

  predicate PowerAlign(a: nat) {
    a == 1 || a == 2 || a == 4 || a == 8 || a == 16
  }

  /** The scalars RuSTy emits: i1, i8 ... i128, half ... fp128 and ptr. */
  ghost predicate Regular<N>(t: LType<N>)
    decreases t
  {
    match t
    case Int(bits) => bits in {1, 8, 16, 32, 64, 128}
    case Float(bits) => bits in {16, 32, 64, 128}
    case Array(_, e) => Regular(e)
    case Vector(_, e) => Regular(e)
    case Struct(fs) => forall i :: 0 <= i < |fs| ==> Regular(fs[i])
    case _ => true
  }

  ghost predicate RegularDefs<N(!new)>(defs: Defs<N>) {
    forall n :: n in defs ==> Regular(defs[n])
  }

  ghost predicate RegularLayout(sa: SizeAlign) {
    PowerAlign(sa.align) && sa.size % sa.align == 0
  }

  /** Every alignment is a power of two that divides the size. */
  lemma {:induction false} RegularDivides<N(!new)>(t: LType<N>, defs: Defs<N>, rank: map<N, nat>)
    requires Ranked(defs, rank) && Regular(t) && RegularDefs(defs) && Layout(t, defs, rank).Ok?
    ensures RegularLayout(Layout(t, defs, rank).value)
    decreases Height(t, rank), t, 1
  {
    match t
    case Array(count, e) =>
      RegularDivides(e, defs, rank);
      var sa := Layout(e, defs, rank).value;
      MultipleOf(count, sa.size, sa.align);
      TimesIsProduct(count, sa.size);
    case Vector(count, e) =>
      RegularDivides(e, defs, rank);
      var sa := Layout(e, defs, rank).value;
      MultipleOf(count, sa.size, sa.align);
      TimesIsProduct(count, sa.size);
    case Struct(fs) =>
      RegularsDivide(fs, defs, rank);
      var sas := Layouts(fs, defs, rank).value;
      MaxAlignIsGreatest(sas);
      StructSizeMultiple(sas);
    case Named(n) => RegularDivides(defs[n], defs, rank);
    case _ =>
  }

  lemma {:induction false} RegularsDivide<N(!new)>(fs: seq<LType<N>>, defs: Defs<N>, rank: map<N, nat>)
    requires Ranked(defs, rank) && Regular(Struct(fs)) && RegularDefs(defs) && Layouts(fs, defs, rank).Ok?
    ensures forall i :: 0 <= i < |fs| ==> RegularLayout(Layouts(fs, defs, rank).value[i])
    decreases HeightAll(fs, rank), fs, 0
  {
    if fs != [] {
      var front := fs[..|fs| - 1];
      assert forall i :: 0 <= i < |front| ==> front[i] == fs[i];
      RegularsDivide(front, defs, rank);
      RegularDivides(fs[|fs| - 1], defs, rank);
    }
  }

  /** For integers the size is a multiple of the alignment exactly up to 64 bits and at whole
      multiples of 16 bytes. */
  lemma {:induction false} IntDividesExactly(bits: nat)
    ensures IntLayout(bits).size % IntLayout(bits).align == 0 <==> bits <= 64 || ((bits + 7) / 8) % 16 == 0
  {
    if bits <= 64 {
      var size := IntLayout(bits).size;
      assert size <= 8;
      DivModUnique(1, 0, size);
    }
  }

  /** With k copies of the type, the size is a multiple of the alignment: always, but for integers of more
      than 64 bits that are repeated, by k and the arrays around them, to no multiple of 16 bytes. */
  ghost predicate WholeUnits<N(!new)>(t: LType<N>, defs: Defs<N>, rank: map<N, nat>, k: nat)
    requires Ranked(defs, rank)
    decreases Height(t, rank), t
  {
    match t
    case Int(bits) => bits <= 64 || Times(k, (bits + 7) / 8) % 16 == 0
    case Array(count, e) => WholeUnits(e, defs, rank, Times(k, count))
    case Vector(count, e) => WholeUnits(e, defs, rank, Times(k, count))
    case Named(n) => n in defs ==> WholeUnits(defs[n], defs, rank, k)
    case _ => true
  }

  /** k copies of a type take a multiple of its alignment exactly when WholeUnits says so. */
  lemma {:induction false} CopiesDivideExactly<N(!new)>(t: LType<N>, defs: Defs<N>, rank: map<N, nat>, k: nat)
    requires Ranked(defs, rank) && Layout(t, defs, rank).Ok?
    ensures var sa := Layout(t, defs, rank).value;
            Times(k, sa.size) % sa.align == 0 <==> WholeUnits(t, defs, rank, k)
    decreases Height(t, rank), t, 1
  {
    match t
    case Ptr => CopiesOfUnit(k, 8, 8);
    case Void => CopiesOfUnit(k, 0, 1);
    case Int(bits) =>
      if bits <= 64 {
        IntDividesExactly(bits);
        CopiesOfUnit(k, IntLayout(bits).size, IntLayout(bits).align);
      }
    case Float(bits) =>
      DivModUnique(1, 0, FloatLayout(bits).size);
      CopiesOfUnit(k, FloatLayout(bits).size, FloatLayout(bits).align);
    case Array(count, e) => CopiesOfArray(count, e, defs, rank, k);
    case Vector(count, e) => CopiesOfArray(count, e, defs, rank, k);
    case Struct(fs) =>
      var sas := Layouts(fs, defs, rank).value;
      MaxAlignIsGreatest(sas);
      StructSizeMultiple(sas);
      CopiesOfUnit(k, StructOf(sas).size, StructOf(sas).align);
    case Named(n) => CopiesDivideExactly(defs[n], defs, rank, k);
  }

  lemma {:induction false} CopiesOfArray<N(!new)>(count: nat, e: LType<N>, defs: Defs<N>, rank: map<N, nat>, k: nat)
    requires Ranked(defs, rank) && Layout(e, defs, rank).Ok?
    ensures var sa := Layout(e, defs, rank).value;
            Times(k, Times(count, sa.size)) % sa.align == 0 <==> WholeUnits(e, defs, rank, Times(k, count))
    decreases Height(e, rank), e, 2
  {
    CopiesDivideExactly(e, defs, rank, Times(k, count));
    TimesAssociates(k, count, Layout(e, defs, rank).value.size);
  }

  lemma {:induction false} CopiesOfUnit(k: nat, size: nat, align: nat)
    requires align >= 1 && size % align == 0
    ensures Times(k, size) % align == 0
  {
    MultipleOf(k, size, align);
    TimesIsProduct(k, size);
  }

  /** The size of a type is a multiple of its alignment exactly when WholeUnits says so of one copy. */
  lemma {:induction false} SizeDividesExactly<N(!new)>(t: LType<N>, defs: Defs<N>, rank: map<N, nat>)
    requires Ranked(defs, rank) && Layout(t, defs, rank).Ok?
    ensures var sa := Layout(t, defs, rank).value;
            sa.size % sa.align == 0 <==> WholeUnits(t, defs, rank, 1)
  {
    CopiesDivideExactly(t, defs, rank, 1);
    TimesIsProduct(1, Layout(t, defs, rank).value.size);
  }
}
