/** Struct layout over lists of (size, align): the rule that compiler/harness/llvm_ir.py and
    compiler/harness/contract.py each implement (section 3.1.2 of the System V AMD64 psABI). */
module StructLayout {

  datatype SizeAlign = SizeAlign(size: nat, align: nat)

  ghost predicate Aligned(sas: seq<SizeAlign>) {
    forall i :: 0 <= i < |sas| ==> sas[i].align >= 1
  }

  /** The remainder by repeated subtraction. */
  function Rem(x: nat, a: nat): nat
    requires a >= 1
  {
    if x < a then x else Rem(x - a, a)
  }

  /** Rounding up to the next multiple. */
  function Pad(offset: nat, align: nat): nat
    requires align >= 1
  {
    if Rem(offset, align) != 0 then offset + PadBytes(Rem(offset, align), align) else offset
  }

  function PadBytes(rem: nat, align: nat): nat {
    if rem < align then align - rem else 0
  }

  /** `align_up` of contract.py. */
  function AlignUp(value: nat, alignment: nat): nat {
    if alignment <= 1 then value else (value + alignment - 1) / alignment * alignment
  }

  // ----- alignment arithmetic

  lemma {:induction false} DivModBounds(x: int, a: int)
    requires a >= 1
    ensures x == x / a * a + x % a && 0 <= x % a < a
  {
  }

  /** Quotient and remainder are unique. */
  lemma {:induction false} DivModUnique(q: int, r: int, a: int)
    requires a >= 1 && 0 <= r < a
    ensures (q * a + r) / a == q && (q * a + r) % a == r
  {
    var x := q * a + r;
    DivModBounds(x, a);
    var d := x / a - q;
    assert d * a == r - x % a by {
      assert (x / a - q) * a == x / a * a - q * a;
    }
    if d >= 1 {
      MulAtLeast(d, 1, a);
    } else if d <= -1 {
      MulAtLeast(-1, d, a);
    }
  }

  lemma {:induction false} MulAtLeast(p: int, q: int, a: int)
    requires p >= q && a >= 1
    ensures p * a >= q * a
  {
  }

  lemma {:induction false} RemIsMod(x: nat, a: nat)
    requires a >= 1
    ensures Rem(x, a) == x % a && Rem(x, a) < a
  {
    DivModBounds(x, a);
    if x < a {
      DivModUnique(0, x, a);
    } else {
      RemIsMod(x - a, a);
      DivModBounds(x - a, a);
      assert x == ((x - a) / a + 1) * a + (x - a) % a;
      DivModUnique((x - a) / a + 1, (x - a) % a, a);
    }
  }

  /** The padding step as `struct_size_align` and `struct_field_layout` write it. */
  method PadStep(offset: nat, align: nat) returns (r: nat)
    requires align >= 1
    ensures r == Pad(offset, align)
  {
    RemIsMod(offset, align);
    r := offset;
    if offset % align != 0 {
      r := r + (align - offset % align);
    }
  }

  /** Padding rounds up to the least multiple. */
  lemma {:induction false} PadIsLeast(x: nat, a: nat)
    requires a >= 1
    ensures Pad(x, a) % a == 0 && x <= Pad(x, a) < x + a
  {
    RemIsMod(x, a);
    DivModBounds(x, a);
    if x % a != 0 {
      assert Pad(x, a) == (x / a + 1) * a + 0;
      DivModUnique(x / a + 1, 0, a);
    }
  }

  lemma {:induction false} PadUnique(x: nat, a: nat, y: nat)
    requires a >= 1 && y % a == 0 && x <= y < x + a
    ensures y == Pad(x, a)
  {
    PadIsLeast(x, a);
    DivModBounds(y, a);
    DivModBounds(Pad(x, a), a);
    var d := y / a - Pad(x, a) / a;
    assert d * a == y - Pad(x, a);
    if d >= 1 {
      MulAtLeast(d, 1, a);
    } else if d <= -1 {
      MulAtLeast(-1, d, a);
    }
  }

  /** The two rounding formulas agree. */
  lemma {:induction false} AlignUpIsPad(x: nat, a: nat)
    requires a >= 1
    ensures AlignUp(x, a) == Pad(x, a)
  {
    if a > 1 {
      var y := (x + a - 1) / a * a;
      DivModBounds(x + a - 1, a);
      DivModUnique((x + a - 1) / a, 0, a);
      PadUnique(x, a, y);
    } else {
      PadIsLeast(x, a);
    }
  }

  lemma {:induction false} AddMultiple(x: int, m: int, a: int)
    requires a >= 1 && m % a == 0
    ensures (x + m) % a == x % a
  {
    DivModBounds(x, a);
    DivModBounds(m, a);
    assert x + m == (x / a + m / a) * a + x % a by {
      assert (x / a + m / a) * a == x / a * a + m / a * a;
    }
    DivModUnique(x / a + m / a, x % a, a);
  }

  lemma {:induction false} PadShift(base: nat, x: nat, a: nat)
    requires a >= 1 && base % a == 0
    ensures Pad(base + x, a) == base + Pad(x, a)
  {
    AddMultiple(x, base, a);
    RemIsMod(x, a);
    RemIsMod(base + x, a);
  }

  lemma {:induction false} MultipleOf(count: nat, size: nat, a: nat)
    requires a >= 1 && size % a == 0
    ensures (count * size) % a == 0
  {
    if count == 0 {
      DivModUnique(0, 0, a);
    } else {
      MultipleOf(count - 1, size, a);
      assert count * size == (count - 1) * size + size;
      AddMultiple((count - 1) * size, size, a);
    }
  }

  // ----- the layout of a field list

  /** Offset behind the last field. */
  function End(sas: seq<SizeAlign>): nat
    requires forall i :: 0 <= i < |sas| ==> sas[i].align >= 1
  {
    if sas == [] then 0
    else
      var last := sas[|sas| - 1];
      Pad(End(sas[..|sas| - 1]), last.align) + last.size
  }

  function OffsetAt(sas: seq<SizeAlign>, i: nat): nat
    requires i < |sas| && forall k :: 0 <= k < |sas| ==> sas[k].align >= 1
  {
    Pad(End(sas[..i]), sas[i].align)
  }

  function MaxAlign(sas: seq<SizeAlign>): nat {
    if sas == [] then 1
    else
      var m, last := MaxAlign(sas[..|sas| - 1]), sas[|sas| - 1];
      if last.align > m then last.align else m
  }

  lemma {:induction false} MaxAlignIsGreatest(sas: seq<SizeAlign>)
    ensures MaxAlign(sas) >= 1 && (forall i :: 0 <= i < |sas| ==> sas[i].align <= MaxAlign(sas))
    ensures MaxAlign(sas) == 1 || exists i :: 0 <= i < |sas| && sas[i].align == MaxAlign(sas)
  {
    if sas != [] {
      var front := sas[..|sas| - 1];
      MaxAlignIsGreatest(front);
      assert forall i :: 0 <= i < |front| ==> front[i] == sas[i];
    }
  }

  function StructOf(sas: seq<SizeAlign>): SizeAlign
    requires forall i :: 0 <= i < |sas| ==> sas[i].align >= 1
  {
    MaxAlignIsGreatest(sas);
    SizeAlign(Pad(End(sas), MaxAlign(sas)), MaxAlign(sas))
  }

  lemma {:induction false} EndGrows(sas: seq<SizeAlign>, i: nat, j: nat)
    requires Aligned(sas) && i < j <= |sas|
    ensures OffsetAt(sas, i) + sas[i].size <= End(sas[..j])
    decreases j
  {
    var s := sas[..j];
    assert s[..j - 1] == sas[..j - 1];
    PadIsLeast(End(sas[..j - 1]), sas[j - 1].align);
    if i < j - 1 {
      EndGrows(sas, i, j - 1);
    }
  }

  /** Every field is aligned, behind the fields before it with the least padding, and inside the
      struct; the struct's size is a multiple of its alignment. */
  lemma {:induction false} FieldsFit(sas: seq<SizeAlign>, i: nat)
    requires Aligned(sas) && i < |sas|
    ensures OffsetAt(sas, i) % sas[i].align == 0
    ensures End(sas[..i]) <= OffsetAt(sas, i) < End(sas[..i]) + sas[i].align
    ensures forall j :: i < j < |sas| ==> OffsetAt(sas, i) + sas[i].size <= OffsetAt(sas, j)
    ensures OffsetAt(sas, i) + sas[i].size <= StructOf(sas).size
  {
    PadIsLeast(End(sas[..i]), sas[i].align);
    forall j | i < j < |sas| ensures OffsetAt(sas, i) + sas[i].size <= OffsetAt(sas, j) {
      EndGrows(sas, i, j);
      PadIsLeast(End(sas[..j]), sas[j].align);
    }
    EndGrows(sas, i, |sas|);
    assert sas[..|sas|] == sas;
    MaxAlignIsGreatest(sas);
    PadIsLeast(End(sas), MaxAlign(sas));
  }

  /** The size is the least multiple of the alignment at or behind the end of the fields. */
  lemma {:induction false} StructSizeMultiple(sas: seq<SizeAlign>)
    requires Aligned(sas)
    ensures StructOf(sas).size % StructOf(sas).align == 0
    ensures End(sas) <= StructOf(sas).size < End(sas) + StructOf(sas).align
  {
    MaxAlignIsGreatest(sas);
    PadIsLeast(End(sas), MaxAlign(sas));
  }
}

/** `region_layout` of compiler/harness/contract.py. */
module RegionLayout {
  import opened StructLayout

  datatype Field = Field(name: string, size: nat, align: nat)
  datatype Region = Region(name: string, offset: nat, size: nat, align: nat)

  function Shape(f: Field): SizeAlign {
    SizeAlign(f.size, f.align)
  }

  ghost function Shapes(fs: seq<Field>): (r: seq<SizeAlign>)
    ensures |r| == |fs| && forall i :: 0 <= i < |fs| ==> r[i] == Shape(fs[i])
  {
    seq(|fs|, i requires 0 <= i < |fs| => Shape(fs[i]))
  }

  /** The same walk started at `base`. */
  ghost function EndFrom(base: nat, sas: seq<SizeAlign>): nat
    requires Aligned(sas)
  {
    if sas == [] then base
    else
      var last := sas[|sas| - 1];
      Pad(EndFrom(base, sas[..|sas| - 1]), last.align) + last.size
  }

  ghost function RegionAt(fields: seq<Field>, base: nat, i: nat): Region
    requires Aligned(Shapes(fields)) && i < |fields|
  {
    Region(fields[i].name, Pad(EndFrom(base, Shapes(fields)[..i]), fields[i].align), fields[i].size, fields[i].align)
  }

  ghost predicate Placed(fields: seq<Field>, base: nat, regions: seq<Region>)
    requires Aligned(Shapes(fields))
  {
    |regions| <= |fields| && forall i :: 0 <= i < |regions| ==> regions[i] == RegionAt(fields, base, i)
  }

  lemma {:induction false} PlacedNext(fields: seq<Field>, base: nat, regions: seq<Region>, at: nat)
    requires Aligned(Shapes(fields)) && Placed(fields, base, regions) && |regions| < |fields|
    requires at == Pad(EndFrom(base, Shapes(fields)[..|regions|]), fields[|regions|].align)
    ensures var f := fields[|regions|];
            Placed(fields, base, regions + [Region(f.name, at, f.size, f.align)])
  {
  }

  lemma {:induction false} NextField(base: nat, sas: seq<SizeAlign>, i: nat)
    requires Aligned(sas) && i < |sas|
    ensures EndFrom(base, sas[..i + 1]) == Pad(EndFrom(base, sas[..i]), sas[i].align) + sas[i].size
    ensures MaxAlign(sas[..i + 1]) == if sas[i].align > MaxAlign(sas[..i]) then sas[i].align else MaxAlign(sas[..i])
  {
    assert sas[..i + 1][..i] == sas[..i];
  }

  lemma {:induction false} EndFromGrows(base: nat, sas: seq<SizeAlign>)
    requires Aligned(sas)
    ensures EndFrom(base, sas) >= base
  {
    if sas != [] {
      EndFromGrows(base, sas[..|sas| - 1]);
      PadIsLeast(EndFrom(base, sas[..|sas| - 1]), sas[|sas| - 1].align);
    }
  }

  method PlaceFields(fields: seq<Field>, base: nat) returns (offset: nat, align: nat, regions: seq<Region>)
    requires Aligned(Shapes(fields))
    ensures |regions| == |fields| && Placed(fields, base, regions)
    ensures offset == EndFrom(base, Shapes(fields)) && align == MaxAlign(Shapes(fields))
  {
    ghost var sas := Shapes(fields);
    offset, align, regions := base, 1, [];
    for i := 0 to |fields|
      invariant offset == EndFrom(base, sas[..i]) && align == MaxAlign(sas[..i])
      invariant |regions| == i && Placed(fields, base, regions)
    {
      var f := fields[i];
      NextField(base, sas, i);
      offset := RoundUp(offset, f.align);
      PlacedNext(fields, base, regions, offset);
      regions := regions + [Region(f.name, offset, f.size, f.align)];
      offset := offset + f.size;
      align := if f.align > align then f.align else align;
    }
    assert sas[..|fields|] == sas;
  }

  method RoundUp(offset: nat, alignment: nat) returns (r: nat)
    requires alignment >= 1
    ensures r == Pad(offset, alignment)
  {
    AlignUpIsPad(offset, alignment);
    r := AlignUp(offset, alignment);
  }

  /** `region_layout`. */
  method Layout(fields: seq<Field>, base: nat) returns (total: nat, align: nat, regions: seq<Region>)
    requires Aligned(Shapes(fields))
    ensures |regions| == |fields| && Placed(fields, base, regions)
    ensures align == MaxAlign(Shapes(fields)) >= 1
    ensures base + total == Pad(EndFrom(base, Shapes(fields)), align)
  {
    var offset;
    offset, align, regions := PlaceFields(fields, base);
    MaxAlignIsGreatest(Shapes(fields));
    EndFromGrows(base, Shapes(fields));
    PadIsLeast(offset, align);
    offset := RoundUp(offset, align);
    total := offset - base;
  }

  // ----- agreement with the struct layout

  ghost predicate BaseFits(sas: seq<SizeAlign>, base: nat) {
    Aligned(sas) && forall i :: 0 <= i < |sas| ==> base % sas[i].align == 0
  }

  lemma {:induction false} EndShifts(base: nat, sas: seq<SizeAlign>)
    requires BaseFits(sas, base)
    ensures EndFrom(base, sas) == base + End(sas)
  {
    if sas != [] {
      var front, last := sas[..|sas| - 1], sas[|sas| - 1];
      EndShifts(base, front);
      PadShift(base, End(front), last.align);
    }
  }

  /** At a base that is aligned for every field (0 always is), the regions are the fields of the
      struct layout shifted by the base, and the total is the struct's size. */
  lemma {:induction false} RegionsAreStruct(fields: seq<Field>, base: nat, regions: seq<Region>, total: nat, i: nat)
    requires BaseFits(Shapes(fields), base) && Placed(fields, base, regions) && i < |regions| == |fields|
    requires base + total == Pad(EndFrom(base, Shapes(fields)), MaxAlign(Shapes(fields)))
    ensures regions[i].offset == base + OffsetAt(Shapes(fields), i)
    ensures total == StructOf(Shapes(fields)).size
  {
    var sas := Shapes(fields);
    EndShifts(base, sas[..i]);
    PadShift(base, End(sas[..i]), sas[i].align);
    TotalShifts(base, sas);
  }

  lemma {:induction false} TotalShifts(base: nat, sas: seq<SizeAlign>)
    requires BaseFits(sas, base) && sas != []
    ensures Pad(EndFrom(base, sas), MaxAlign(sas)) == base + StructOf(sas).size
  {
    EndShifts(base, sas);
    MaxAlignIsGreatest(sas);
    var k :| 0 <= k < |sas| && (MaxAlign(sas) == 1 || sas[k].align == MaxAlign(sas));
    assert base % sas[k].align == 0 && base % 1 == 0;
    PadShift(base, End(sas), MaxAlign(sas));
  }

  lemma {:induction false} ZeroFits(sas: seq<SizeAlign>)
    requires Aligned(sas)
    ensures BaseFits(sas, 0)
  {
    forall i | 0 <= i < |sas| ensures 0 % sas[i].align == 0 {
      DivModUnique(0, 0, sas[i].align);
    }
  }
}
