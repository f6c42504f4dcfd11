/**
 The emitters as the backend runs them: lines appended one by one, variants and
 fields of a comparison visited last to first, names of partial results updated
 along the way. They write exactly the code EnumCode and VariantCode describe.
 */
module EnumEmitter {
  import opened Arith
  import opened Layout
  import opened Ir
  import opened EnumCode
  import opened VariantCode
  import opened AggregateEquality

  // ----- Steps of the emitter's loops -----

  lemma {:induction false} VariantsEnd(mode: Mode, variants: seq<Variant>, base: Name)
    ensures VariantsCode(mode, variants, |variants|, base) == []
    ensures VariantsOut(mode, variants, |variants|, base) == NoVariants(mode)
  {
    hide PayloadSize, FieldsCode, PickCode;
  }

  lemma {:induction false} FieldsEnd(mode: Mode, variants: seq<Variant>, i: nat, base: Name)
    requires i < |variants|
    ensures FieldsCode(mode, variants, i, |variants[i].fields|, base) == []
    ensures FieldsOut(mode, variants, i, |variants[i].fields|, base) == NoFields(mode)
  {
    hide PayloadSize, FieldCode;
  }

  lemma {:induction false} VariantsStep(
      mode: Mode, variants: seq<Variant>, i: nat, base: Name, start: seq<Line>, before: seq<Line>, after: seq<Line>)
    requires i < |variants|
    requires before == start + VariantsCode(mode, variants, i + 1, base)
    requires after == before + FieldsCode(mode, variants, i, 0, base) + PickCode(mode, variants, i, base)
    ensures after == start + VariantsCode(mode, variants, i, base)
  {
    hide PayloadSize, FieldsCode, PickCode;
  }

  lemma {:induction false} FieldsStep(
      mode: Mode, variants: seq<Variant>, i: nat, j: nat, base: Name, start: seq<Line>, before: seq<Line>, after: seq<Line>)
    requires i < |variants| && j < |variants[i].fields|
    requires before == start + FieldsCode(mode, variants, i, j + 1, base)
    requires after == before + FieldCode(mode, variants, i, j, base)
    ensures after == start + FieldsCode(mode, variants, i, j, base)
  {
    hide PayloadSize, FieldCode;
  }

  lemma {:induction false} FieldPieces(
      mode: Mode, variants: seq<Variant>, i: nat, j: nat, base: Name, before: seq<Line>, after: seq<Line>)
    requires i < |variants| && j < |variants[i].fields|
    requires var ty, field, sub := variants[i].fields[j], FieldName(base, i, j), SubName(mode, base, i, j);
             after == before
               + LoadPairCode(Members(variants), ty, SlotName(mode, base, Lhs), SlotName(mode, base, Rhs), FieldOffset(variants, i, j), sub, field)
               + OrderCode(ty, Temp(field + [Lhs]), Temp(field + [Rhs]), sub) + MergeCode(mode, variants, i, j, base)
    ensures after == before + FieldCode(mode, variants, i, j, base)
  {
    hide PayloadSize, LoadPairCode, OrderCode, MergeCode, FieldOffset, SubName, FieldName, SlotName;
  }

  /** The layout the emitter was handed describes field j of variant i. */
  lemma {:induction false} FieldLayout(variants: seq<Variant>, i: nat, j: nat, layout: EnumLayout)
    requires layout == EnumLayoutOf(variants)
    requires i < |variants| && j < |variants[i].fields|
    ensures |layout.fieldTypes| == |layout.offsets| == |variants|
    ensures |layout.fieldTypes[i]| == |layout.offsets[i]| == |variants[i].fields|
    ensures layout.fieldTypes[i][j] == Lowered(variants[i].fields[j], false)
    ensures layout.offsets[i][j] == FieldOffset(variants, i, j)
    ensures MemberCount(layout.payloadSize) == Members(variants)
  {
    hide PayloadSize, Lowered;
    PayloadFieldFits(variants, i, j);
  }

  lemma {:induction false} LayoutSizes(variants: seq<Variant>, layout: EnumLayout)
    requires layout == EnumLayoutOf(variants)
    ensures layout.aggregate == Lowered(Enum(variants), false) && layout.payloadSize == PayloadSize(variants)
    ensures |layout.fieldTypes| == |layout.offsets| == |variants|
    ensures forall i :: 0 <= i < |variants| ==> |layout.fieldTypes[i]| == |layout.offsets[i]| == |variants[i].fields|
  {
    hide PayloadSize, AlignTo, EnumInfo;
    forall i | 0 <= i < |variants| ensures |layout.offsets[i]| == |variants[i].fields| {
      PlaceCounts(false, Infos(variants[i].fields, false));
    }
  }

  lemma {:induction false} PlaceCounts(packed: bool, infos: seq<TypeInfo>)
    ensures |Place(packed, infos).offsets| == |infos|
  {
    hide AlignTo;
    if infos != [] {
      PlaceCounts(packed, infos[..|infos| - 1]);
    }
  }

  lemma {:induction false} InitStart(variants: seq<Variant>, tag: nat, operands: seq<Operand>, base: Name)
    requires tag < |variants| && |operands| == |variants[tag].fields|
    ensures InitFieldsCode(variants, tag, operands, 0, base) == []
  {
    hide PayloadSize, InitFieldCode;
  }

  lemma {:induction false} InitStep(
      variants: seq<Variant>, tag: nat, operands: seq<Operand>, k: nat, base: Name,
      start: seq<Line>, before: seq<Line>, after: seq<Line>)
    requires tag < |variants| && 0 < k <= |operands| == |variants[tag].fields|
    requires before == start + InitFieldsCode(variants, tag, operands, k - 1, base)
    requires after == before + InitFieldCode(variants, tag, k - 1, operands[k - 1], base)
    ensures after == start + InitFieldsCode(variants, tag, operands, k, base)
  {
    hide PayloadSize, InitFieldCode;
  }

  lemma {:induction false} TagsOnlyPieces(
      variants: seq<Variant>, left: Operand, right: Operand, base: Name, before: seq<Line>, after: seq<Line>)
    requires PayloadSize(variants) == 0
    requires after == before + TagPairCode(left, right, base) + TagIcmp(PEq, base, base + [Tag, Eq])
               + TagIcmp(PSlt, base, base + [Tag, Lt]) + TagIcmp(PSgt, base, base + [Tag, Gt])
    ensures after == before + EnumOrderCode(variants, left, right, base)
    ensures OrderOut(Enum(variants), base) == Triple(Temp(base + [Tag, Eq]), Temp(base + [Tag, Lt]), Temp(base + [Tag, Gt]))
  {
    hide PayloadSize, TagPairCode, TagIcmp;
  }

  lemma {:induction false} NestedPieces(
      variants: seq<Variant>, left: Operand, right: Operand, base: Name, before: seq<Line>, after: seq<Line>)
    requires PayloadSize(variants) != 0
    requires after == before + TagPairCode(left, right, base) + TagIcmp(PEq, base, base + [Tag, Eq])
               + TagIcmp(PSlt, base, base + [Tag, Lt]) + TagIcmp(PSgt, base, base + [Tag, Gt])
               + StackSlotCode(Enum(variants), left, SlotName(Nested, base, Lhs))
               + StackSlotCode(Enum(variants), right, SlotName(Nested, base, Rhs))
               + VariantsCode(Nested, variants, 0, base) + NestedResultCode(variants, base)
    ensures after == before + EnumOrderCode(variants, left, right, base)
    ensures OrderOut(Enum(variants), base) == Triple(Temp(base + [Eq]), Temp(base + [Lt]), Temp(base + [Gt]))
  {
    hide PayloadSize, TagPairCode, TagIcmp, StackSlotCode, SlotName, VariantsCode, NestedResultCode;
  }

  lemma {:induction false} TagComparePieces(
      variants: seq<Variant>, op: Op, left: Operand, right: Operand, base: Name, before: seq<Line>, after: seq<Line>)
    requires PayloadSize(variants) == 0
    requires after == before + TagPairCode(left, right, base) + TagIcmp(TagPredicate(op), base, base)
    ensures after == before + CompareCode(variants, op, left, right, base)
  {
    hide PayloadSize, TagPairCode, TagIcmp, TagPredicate;
  }

  lemma {:induction false} ComparePieces(
      variants: seq<Variant>, op: Op, left: Operand, right: Operand, base: Name, before: seq<Line>, after: seq<Line>)
    requires PayloadSize(variants) != 0
    requires var mode := ModeOf(op);
             after == before + TagPairCode(left, right, base) + TagIcmp(PEq, base, base + [Tag, Eq])
               + StackSlotCode(Enum(variants), left, SlotName(mode, base, Lhs))
               + StackSlotCode(Enum(variants), right, SlotName(mode, base, Rhs))
               + OrderTagCode(op, base)
               + VariantsCode(mode, variants, 0, base) + ResultCode(variants, op, base)
    ensures after == before + CompareCode(variants, op, left, right, base)
  {
    hide PayloadSize, TagPairCode, TagIcmp, TagPredicate, StackSlotCode, SlotName, VariantsCode, ResultCode, ModeOf;
  }

  lemma {:induction false} ChunksStart(base: Name, size: nat)
    ensures Current(base, 0) == LitBit(true)
  {
  }

  lemma {:induction false} ChunksStep(base: Name, size: nat, offset: nat, k: nat)
    requires offset < size
    ensures var n := ChunkSize(size - offset);
            && ChunksCode(base, size, offset, k) == ChunkCode(base, offset, n, k) + ChunksCode(base, size, offset + n, k + 1)
            && ChunkCount(size, offset) == 1 + ChunkCount(size, offset + n)
  {
    hide ChunkCode;
  }

  lemma {:induction false} ChunksEnd(base: Name, size: nat, offset: nat, k: nat)
    requires offset >= size
    ensures ChunksCode(base, size, offset, k) == [] && ChunkCount(size, offset) == 0
  {
  }

  lemma {:induction false} CurrentStep(base: Name, k: nat)
    ensures Current(base, k + 1) == Temp(Path(base) + [Eq, Num(k)])
  {
    var next := k + 1;
    assert next - 1 == k;
  }

  lemma {:induction false} Reassociated(a: seq<Line>, b: seq<Line>, c: seq<Line>)
    ensures a + (b + c) == a + b + c
  {
  }

  lemma {:induction false} EqualityPieces(
      ty: Type, negate: bool, left: Operand, right: Operand, base: Name, before: seq<Line>, after: seq<Line>)
    requires var size := Lowered(ty, false).size;
             after == before + SpillsCode(ty, left, right, base) + ChunksCode(base, size, 0, 0)
                      + [Def(base, FinalExpr(negate, base, ChunkCount(size, 0)))]
    ensures after == before + EqualityCode(ty, negate, left, right, base)
  {
    hide Lowered, SpillsCode, ChunksCode, FinalExpr, ChunkCount;
  }

  lemma {:induction false} FinalLine(negate: bool, base: Name, k: nat, current: Operand)
    requires current == Current(base, k)
    ensures FinalExpr(negate, base, k) == if negate then XorBit(current, LitBit(true)) else AndBit(LitBit(true), current)
  {
  }

  class Emitter {
    var lines: seq<Line>

    constructor ()
      ensures lines == []
    {
      lines := [];
    }

    method Push(line: Line)
      modifies this
      ensures lines == old(lines) + [line]
    {
      lines := lines + [line];
    }

    method EmitStackSlot(ty: Type, value: Operand, slot: Name)
      modifies this
      ensures lines == old(lines) + StackSlotCode(ty, value, slot)
    {
      var info := LowerType(ty, false);
      Push(Def(slot, Alloca(info.size, info.alignment)));
      Push(Store(MemOf(ty), value, Temp(slot), info.alignment));
    }

    method EmitFieldPointer(members: nat, slot: Name, offset: nat, name: Name) returns (pointer: Operand)
      modifies this
      ensures lines == old(lines) + PointerCode(members, slot, offset, name)
      ensures pointer == PointerOut(offset, name)
    {
      var payloadSlot := name + [Payload];
      Push(Def(payloadSlot, GepMember(Temp(slot), members, 1)));
      if offset == 0 {
        return Temp(payloadSlot);
      }
      Push(Def(name + [Field], GepByte(Temp(payloadSlot), offset)));
      pointer := Temp(name + [Field]);
    }

    method EmitScalarComparison(op: Op, ty: Type, left: Operand, right: Operand, target: Name) returns (result: Operand)
      modifies this
      ensures lines == old(lines) + ScalarCode(op, ty, left, right, target)
      ensures result == Temp(target)
    {
      Push(Def(target, Icmp(ScalarPredicate(op, UnsignedOrder(ty)), MemOf(ty), left, right)));
      result := Temp(target);
    }

    /** Both operands' copies of one field. */
    method EmitLoadPair(members: nat, ty: Type, info: TypeInfo, lslot: Name, rslot: Name, offset: nat, sub: Name, field: Name)
      requires info == Lowered(ty, false)
      modifies this
      ensures lines == old(lines) + LoadPairCode(members, ty, lslot, rslot, offset, sub, field)
    {
      var lhsPointer := EmitFieldPointer(members, lslot, offset, sub + [Lhs, PtrWord]);
      var rhsPointer := EmitFieldPointer(members, rslot, offset, sub + [Rhs, PtrWord]);
      Push(Def(field + [Lhs], Load(MemOf(ty), lhsPointer, info.alignment)));
      Push(Def(field + [Rhs], Load(MemOf(ty), rhsPointer, info.alignment)));
    }

    /** One field of any orderable type: its eq, lt and gt. */
    method EmitOrdered(ty: Type, left: Operand, right: Operand, base: Name) returns (out: Triple<Operand>)
      requires Orderable(ty)
      modifies this
      ensures lines == old(lines) + OrderCode(ty, left, right, base)
      ensures out == OrderOut(ty, base)
      decreases ty, 6
    {
      if ty.Enum? {
        out := EmitNestedEnum(ty.variants, left, right, base);
      } else {
        var eq := EmitScalarComparison(EqOp, ty, left, right, base + [Eq]);
        var lt := EmitScalarComparison(LtOp, ty, left, right, base + [Lt]);
        var gt := EmitScalarComparison(GtOp, ty, left, right, base + [Gt]);
        out := Triple(eq, lt, gt);
      }
    }

    method EmitTags(left: Operand, right: Operand, base: Name)
      modifies this
      ensures lines == old(lines) + TagPairCode(left, right, base)
    {
      Push(Def(base + [Lhs, Tag], ExtractTag(left)));
      Push(Def(base + [Rhs, Tag], ExtractTag(right)));
    }

    method EmitTagIcmp(p: Predicate, base: Name, target: Name)
      modifies this
      ensures lines == old(lines) + TagIcmp(p, base, target)
    {
      Push(Def(target, Icmp(p, IntTy(8), Temp(base + [Lhs, Tag]), Temp(base + [Rhs, Tag]))));
    }

    method EmitNestedEnum(variants: seq<Variant>, left: Operand, right: Operand, base: Name) returns (out: Triple<Operand>)
      requires OrderableVariants(variants)
      modifies this
      ensures lines == old(lines) + EnumOrderCode(variants, left, right, base)
      ensures out == OrderOut(Enum(variants), base)
      decreases variants, 5
    {
      hide PayloadSize, EnumOrderCode, VariantsCode, StackSlotCode, SlotName, VariantsOut, TagPairCode, TagIcmp, NestedResultCode,
        OrderableVariants;
      var layout := LowerEnumLayout(variants);
      EmitTags(left, right, base);
      EmitTagIcmp(PEq, base, base + [Tag, Eq]);
      EmitTagIcmp(PSlt, base, base + [Tag, Lt]);
      EmitTagIcmp(PSgt, base, base + [Tag, Gt]);
      if layout.payloadSize == 0 {
        TagsOnlyPieces(variants, left, right, base, old(lines), lines);
        return Triple(Temp(base + [Tag, Eq]), Temp(base + [Tag, Lt]), Temp(base + [Tag, Gt]));
      }
      EmitStackSlot(Enum(variants), left, SlotName(Nested, base, Lhs));
      EmitStackSlot(Enum(variants), right, SlotName(Nested, base, Rhs));
      var same := EmitVariants(Nested, variants, layout, base);
      out := EmitNestedResult(variants, same, base);
      NestedPieces(variants, left, right, base, old(lines), lines);
    }

    method EmitNestedResult(variants: seq<Variant>, same: Triple<Operand>, base: Name) returns (out: Triple<Operand>)
      requires same == VariantsOut(Nested, variants, 0, base)
      modifies this
      ensures lines == old(lines) + NestedResultCode(variants, base)
      ensures out == Triple(Temp(base + [Eq]), Temp(base + [Lt]), Temp(base + [Gt]))
    {
      hide VariantsOut;
      Push(Def(base + [Eq], Select(Temp(base + [Tag, Eq]), same.eq, LitBit(false))));
      Push(Def(base + [Lt], Select(Temp(base + [Tag, Eq]), same.lt, Temp(base + [Tag, Lt]))));
      Push(Def(base + [Gt], Select(Temp(base + [Tag, Eq]), same.gt, Temp(base + [Tag, Gt]))));
      out := Triple(Temp(base + [Eq]), Temp(base + [Lt]), Temp(base + [Gt]));
    }

    /** The loop over variants, last first; EmitFields is the loop over one variant's fields. */
    method EmitVariants(mode: Mode, variants: seq<Variant>, layout: EnumLayout, base: Name) returns (same: Triple<Operand>)
      requires OrderableVariants(variants) && layout == EnumLayoutOf(variants)
      modifies this
      ensures lines == old(lines) + VariantsCode(mode, variants, 0, base)
      ensures same == VariantsOut(mode, variants, 0, base)
      decreases variants, 4
    {
      hide PayloadSize, VariantsCode, FieldsCode, PickCode, FieldsOut, VariantsOut, EnumLayoutOf, OrderableVariants;
      same := NoVariants(mode);
      var i := |variants|;
      VariantsEnd(mode, variants, base);
      while i > 0
        invariant 0 <= i <= |variants|
        invariant lines == old(lines) + VariantsCode(mode, variants, i, base)
        invariant same == VariantsOut(mode, variants, i, base)
      {
        i := i - 1;
        ghost var before := lines;
        var v := EmitFields(mode, variants, i, layout, base);
        same := EmitPick(mode, variants, i, v, same, base);
        VariantsStep(mode, variants, i, base, old(lines), before, lines);
      }
    }

    method EmitFields(mode: Mode, variants: seq<Variant>, i: nat, layout: EnumLayout, base: Name) returns (v: Triple<Operand>)
      requires OrderableVariants(variants) && layout == EnumLayoutOf(variants) && i < |variants|
      modifies this
      ensures lines == old(lines) + FieldsCode(mode, variants, i, 0, base)
      ensures v == FieldsOut(mode, variants, i, 0, base)
      decreases variants, 3
    {
      hide PayloadSize, FieldCode, FieldsCode, FieldsOut, EnumLayoutOf, OrderableVariants;
      v := NoFields(mode);
      var j := |variants[i].fields|;
      FieldsEnd(mode, variants, i, base);
      while j > 0
        invariant 0 <= j <= |variants[i].fields|
        invariant lines == old(lines) + FieldsCode(mode, variants, i, j, base)
        invariant v == FieldsOut(mode, variants, i, j, base)
      {
        j := j - 1;
        ghost var before := lines;
        v := EmitField(mode, variants, i, j, layout, v, base);
        FieldsStep(mode, variants, i, j, base, old(lines), before, lines);
      }
    }

    method EmitField(mode: Mode, variants: seq<Variant>, i: nat, j: nat, layout: EnumLayout, rest: Triple<Operand>, base: Name)
      returns (v: Triple<Operand>)
      requires OrderableVariants(variants) && layout == EnumLayoutOf(variants)
      requires i < |variants| && j < |variants[i].fields|
      requires rest == FieldsOut(mode, variants, i, j + 1, base)
      modifies this
      ensures lines == old(lines) + FieldCode(mode, variants, i, j, base)
      ensures v == FieldsOut(mode, variants, i, j, base)
      decreases variants, 2
    {
      hide PayloadSize, FieldCode, LoadPairCode, OrderCode, OrderOut, MergeCode, FieldsOut, Lowered, VariantPlacement, EnumLayoutOf,
        FieldOffset, MergeName, SubName, FieldName, SlotName, Orderable;
      FieldLayout(variants, i, j, layout);
      assert Orderable(variants[i].fields[j]);
      var ty := variants[i].fields[j];
      var sub := SubName(mode, base, i, j);
      var field := FieldName(base, i, j);
      ghost var before := lines;
      EmitLoadPair(MemberCount(layout.payloadSize), ty, layout.fieldTypes[i][j],
                   SlotName(mode, base, Lhs), SlotName(mode, base, Rhs),
                   layout.offsets[i][j], sub, field);
      var f := EmitOrdered(ty, Temp(field + [Lhs]), Temp(field + [Rhs]), sub);
      v := EmitMerge(mode, variants, i, j, f, rest, base);
      FieldPieces(mode, variants, i, j, base, before, lines);
    }

    method EmitMerge(mode: Mode, variants: seq<Variant>, i: nat, j: nat, f: Triple<Operand>, rest: Triple<Operand>, base: Name)
      returns (v: Triple<Operand>)
      requires i < |variants| && j < |variants[i].fields|
      requires f == OrderOut(variants[i].fields[j], SubName(mode, base, i, j))
      requires rest == FieldsOut(mode, variants, i, j + 1, base)
      modifies this
      ensures lines == old(lines) + MergeCode(mode, variants, i, j, base)
      ensures v == FieldsOut(mode, variants, i, j, base)
    {
      hide OrderOut, SubName, MergeName;
      match mode
      case Nested =>
        Push(Def(MergeName(base, i, Eq, j), AndBit(f.eq, rest.eq)));
        Push(Def(MergeName(base, i, Lt, j), Select(f.eq, rest.lt, f.lt)));
        Push(Def(MergeName(base, i, Gt, j), Select(f.eq, rest.gt, f.gt)));
        v := Triple(Temp(MergeName(base, i, Eq, j)), Temp(MergeName(base, i, Lt, j)), Temp(MergeName(base, i, Gt, j)));
      case Equality =>
        Push(Def(MergeName(base, i, Eq, j), AndBit(rest.eq, f.eq)));
        v := Triple(Temp(MergeName(base, i, Eq, j)), LitBit(false), LitBit(false));
      case Ordering(op) =>
        var selected := if op in {LtOp, LeOp} then f.lt else f.gt;
        Push(Def(MergeName(base, i, Step, j), Select(f.eq, rest.lt, selected)));
        v := Triple(LitBit(false), Temp(MergeName(base, i, Step, j)), LitBit(false));
    }

    method EmitPick(mode: Mode, variants: seq<Variant>, i: nat, v: Triple<Operand>, rest: Triple<Operand>, base: Name)
      returns (same: Triple<Operand>)
      requires i < |variants|
      requires v == FieldsOut(mode, variants, i, 0, base) && rest == VariantsOut(mode, variants, i + 1, base)
      modifies this
      ensures lines == old(lines) + PickCode(mode, variants, i, base)
      ensures same == VariantsOut(mode, variants, i, base)
    {
      hide FieldsOut;
      var m := Temp(MatchName(base, i));
      Push(Def(MatchName(base, i), Icmp(PEq, IntTy(8), Temp(base + [Lhs, Tag]), LitI64(i))));
      match mode
      case Nested =>
        Push(Def(base + [Same, Eq, Num(i)], Select(m, v.eq, rest.eq)));
        Push(Def(base + [Same, Lt, Num(i)], Select(m, v.lt, rest.lt)));
        Push(Def(base + [Same, Gt, Num(i)], Select(m, v.gt, rest.gt)));
        same := Triple(Temp(base + [Same, Eq, Num(i)]), Temp(base + [Same, Lt, Num(i)]), Temp(base + [Same, Gt, Num(i)]));
      case Equality =>
        Push(Def(base + [SameTag, Eq, Num(i)], Select(m, v.eq, rest.eq)));
        same := Triple(Temp(base + [SameTag, Eq, Num(i)]), LitBit(false), LitBit(false));
      case Ordering(_) =>
        Push(Def(base + [SameTag, Num(i)], Select(m, v.lt, rest.lt)));
        same := Triple(LitBit(false), Temp(base + [SameTag, Num(i)]), LitBit(false));
    }

    /** EmitEnumCompare: the comparison of two enum values, its result named base. */
    method EmitEnumCompare(variants: seq<Variant>, op: Op, left: Operand, right: Operand, base: Name) returns (result: Operand)
      requires OrderableVariants(variants)
      modifies this
      ensures lines == old(lines) + CompareCode(variants, op, left, right, base)
      ensures result == Temp(base)
    {
      hide PayloadSize, CompareCode, VariantsCode, StackSlotCode, SlotName, VariantsOut, TagPairCode, TagIcmp, TagPredicate,
        ResultCode, ModeOf, OrderableVariants;
      var layout := LowerEnumLayout(variants);
      result := Temp(base);
      EmitTags(left, right, base);
      if layout.payloadSize == 0 {
        EmitTagIcmp(TagPredicate(op), base, base);
        TagComparePieces(variants, op, left, right, base, old(lines), lines);
        return;
      }
      var mode := ModeOf(op);
      EmitTagIcmp(PEq, base, base + [Tag, Eq]);
      EmitStackSlot(Enum(variants), left, SlotName(mode, base, Lhs));
      EmitStackSlot(Enum(variants), right, SlotName(mode, base, Rhs));
      EmitTagOrder(op, base);
      var same := EmitVariants(mode, variants, layout, base);
      EmitResult(variants, op, same, base);
      ComparePieces(variants, op, left, right, base, old(lines), lines);
    }

    /** Orderings also need how the tags compare. */
    method EmitTagOrder(op: Op, base: Name)
      modifies this
      ensures lines == old(lines) + OrderTagCode(op, base)
    {
      if op !in {EqOp, NeOp} {
        EmitTagIcmp(TagPredicate(op), base, base + [Tag, Order]);
      }
    }

    method EmitResult(variants: seq<Variant>, op: Op, same: Triple<Operand>, base: Name)
      requires same == VariantsOut(ModeOf(op), variants, 0, base)
      modifies this
      ensures lines == old(lines) + ResultCode(variants, op, base)
    {
      hide VariantsOut;
      if op == EqOp {
        Push(Def(base, AndBit(Temp(base + [Tag, Eq]), same.eq)));
      } else if op == NeOp {
        EmitTagIcmp(PNe, base, base + [Tag, Ne]);
        Push(Def(base + [Payload, Ne], XorBit(same.eq, LitBit(true))));
        Push(Def(base, OrBit(Temp(base + [Tag, Ne]), Temp(base + [Payload, Ne]))));
      } else {
        Push(Def(base, Select(Temp(base + [Tag, Eq]), same.lt, Temp(base + [Tag, Order]))));
      }
    }

    /** EmitVariantInitInstruction; refuses a wrong number of operands. */
    method EmitVariantInit(variants: seq<Variant>, tag: nat, operands: seq<Operand>, base: Name) returns (ok: bool)
      requires tag < |variants|
      modifies this
      ensures ok <==> |operands| == |variants[tag].fields|
      ensures lines == old(lines) + if ok then InitCode(variants, tag, operands, base) else []
    {
      hide PayloadSize, EnumLayoutOf, Lowered, StackSlotCode, InitFieldsCode, InitFieldCode, InitOpening;
      var layout := LowerEnumLayout(variants);
      LayoutSizes(variants, layout);
      if |operands| != |layout.fieldTypes[tag]| {
        return false;
      }
      EmitInitOpening(variants, tag, layout, base);
      InitStart(variants, tag, operands, base);
      var index := 0;
      while index < |operands|
        invariant 0 <= index <= |operands|
        invariant lines == old(lines) + InitOpening(variants, tag, base) + InitFieldsCode(variants, tag, operands, index, base)
      {
        ghost var before := lines;
        EmitInitField(variants, tag, index, operands[index], layout, base);
        index := index + 1;
        InitStep(variants, tag, operands, index, base, old(lines) + InitOpening(variants, tag, base), before, lines);
      }
      Push(Def(base, Load(MemOf(Enum(variants)), Temp(InitSlot(base)), layout.aggregate.alignment)));
      ok := true;
    }

    method EmitInitOpening(variants: seq<Variant>, tag: nat, layout: EnumLayout, base: Name)
      requires layout == EnumLayoutOf(variants)
      modifies this
      ensures lines == old(lines) + InitOpening(variants, tag, base)
    {
      hide PayloadSize, EnumLayoutOf, Lowered;
      LayoutSizes(variants, layout);
      var info := layout.aggregate;
      Push(Def(InitSlot(base), Alloca(info.size, info.alignment)));
      Push(Store(MemOf(Enum(variants)), ZeroInit(8 + layout.payloadSize), Temp(InitSlot(base)), info.alignment));
      Push(Def(InitTag(base), GepMember(Temp(InitSlot(base)), MemberCount(layout.payloadSize), 0)));
      Push(Store(IntTy(8), LitI64(tag), Temp(InitTag(base)), 8));
    }

    method EmitInitField(variants: seq<Variant>, tag: nat, k: nat, operand: Operand, layout: EnumLayout, base: Name)
      requires layout == EnumLayoutOf(variants) && tag < |variants| && k < |variants[tag].fields|
      modifies this
      ensures lines == old(lines) + InitFieldCode(variants, tag, k, operand, base)
    {
      hide PayloadSize, EnumLayoutOf, Lowered, PointerCode, PointerOut, FieldOffset;
      FieldLayout(variants, tag, k, layout);
      var pointer := EmitFieldPointer(MemberCount(layout.payloadSize), InitSlot(base), layout.offsets[tag][k], InitField(base, k));
      Push(Store(MemOf(variants[tag].fields[k]), operand, pointer, layout.fieldTypes[tag][k].alignment));
    }

    /** EmitVariantMatchInstruction. */
    method EmitVariantMatch(tag: nat, selector: Operand, base: Name)
      modifies this
      ensures lines == old(lines) + MatchCode(tag, selector, base)
    {
      Push(Def(base + [Tag], ExtractTag(selector)));
      Push(Def(base, Icmp(PEq, IntTy(8), Temp(base + [Tag]), LitI64(tag))));
    }

    /** EmitVariantExtractInstruction; refuses a payload index the variant does not have. */
    method EmitVariantExtract(variants: seq<Variant>, tag: nat, k: nat, selector: Operand, base: Name) returns (ok: bool)
      requires tag < |variants|
      modifies this
      ensures ok <==> k < |variants[tag].fields|
      ensures lines == old(lines) + if ok then ExtractCode(variants, tag, k, selector, base) else []
    {
      hide PayloadSize, EnumLayoutOf, Lowered, PointerCode, PointerOut, StackSlotCode, FieldOffset;
      var layout := LowerEnumLayout(variants);
      LayoutSizes(variants, layout);
      if k >= |layout.fieldTypes[tag]| || k >= |layout.offsets[tag]| {
        return false;
      }
      FieldLayout(variants, tag, k, layout);
      var ty := variants[tag].fields[k];
      var resultType := LowerType(ty, false);
      EmitStackSlot(Enum(variants), selector, ExtractSlot(base));
      var pointer := EmitFieldPointer(MemberCount(layout.payloadSize), ExtractSlot(base), layout.offsets[tag][k], ExtractField(base, k));
      Push(Def(base, Load(MemOf(ty), pointer, resultType.alignment)));
      ok := true;
    }

    /** EmitAggregateEqualityComparison and the line after it; the loop takes chunks from the front. */
    method EmitAggregateEquality(ty: Type, negate: bool, left: Operand, right: Operand, base: Name)
      modifies this
      ensures lines == old(lines) + EqualityCode(ty, negate, left, right, base)
    {
      hide StackSlotCode, ChunksCode, ChunkCode, Lowered, SpillsCode, FinalExpr, ChunkCount, Current;
      var info := LowerType(ty, false);
      EmitSpills(ty, left, right, base);
      var currentEq := LitBit(true);
      var offset: nat := 0;
      var chunkIndex: nat := 0;
      ghost var start := lines;
      ChunksStart(base, info.size);
      while offset < info.size
        invariant lines + ChunksCode(base, info.size, offset, chunkIndex) == start + ChunksCode(base, info.size, 0, 0)
        invariant chunkIndex + ChunkCount(info.size, offset) == ChunkCount(info.size, 0)
        invariant currentEq == Current(base, chunkIndex)
      {
        ChunksStep(base, info.size, offset, chunkIndex);
        var chunkSize := ChunkSize(info.size - offset);
        ghost var before := lines;
        currentEq := EmitChunk(base, offset, chunkSize, chunkIndex, currentEq);
        offset := offset + chunkSize;
        chunkIndex := chunkIndex + 1;
        Reassociated(before, ChunkCode(base, offset - chunkSize, chunkSize, chunkIndex - 1), ChunksCode(base, info.size, offset, chunkIndex));
      }
      ChunksEnd(base, info.size, offset, chunkIndex);
      if negate {
        Push(Def(base, XorBit(currentEq, LitBit(true))));
      } else {
        Push(Def(base, AndBit(LitBit(true), currentEq)));
      }
      FinalLine(negate, base, chunkIndex, currentEq);
      EqualityPieces(ty, negate, left, right, base, old(lines), lines);
    }

    method EmitSpills(ty: Type, left: Operand, right: Operand, base: Name)
      modifies this
      ensures lines == old(lines) + SpillsCode(ty, left, right, base)
    {
      hide StackSlotCode;
      EmitStackSlot(ty, left, SideSlot(base, Lhs));
      EmitStackSlot(ty, right, SideSlot(base, Rhs));
    }

    method EmitChunk(base: Name, offset: nat, n: nat, k: nat, current: Operand) returns (next: Operand)
      requires current == Current(base, k)
      modifies this
      ensures lines == old(lines) + ChunkCode(base, offset, n, k)
      ensures next == Current(base, k + 1)
    {
      hide Path, ChunkName, SideSlot, Current;
      Push(Def(ChunkName(base, Lhs, PtrWord, k), GepByte(Temp(SideSlot(base, Lhs)), offset)));
      Push(Def(ChunkName(base, Rhs, PtrWord, k), GepByte(Temp(SideSlot(base, Rhs)), offset)));
      Push(Def(ChunkName(base, Lhs, Chunk, k), Load(IntTy(n), Temp(ChunkName(base, Lhs, PtrWord, k)), 1)));
      Push(Def(ChunkName(base, Rhs, Chunk, k), Load(IntTy(n), Temp(ChunkName(base, Rhs, PtrWord, k)), 1)));
      Push(Def(ChunkName(base, Chunk, Eq, k),
               Icmp(PEq, IntTy(n), Temp(ChunkName(base, Lhs, Chunk, k)), Temp(ChunkName(base, Rhs, Chunk, k)))));
      Push(Def(Path(base) + [Eq, Num(k)], AndBit(current, Temp(ChunkName(base, Chunk, Eq, k)))));
      next := Temp(Path(base) + [Eq, Num(k)]);
      CurrentStep(base, k);
    }
  }
}
