/**
 The code emitted for building an enum value, testing which variant it is and
 taking a payload field out of it. All three go through a stack slot.
 */
module VariantCode {
  import opened Layout
  import opened Ir
  import opened EnumCode

  // ----- Names -----

  function InitSlot(base: Name): Name {
    base + [VariantWord, Slot]
  }

  function InitTag(base: Name): Name {
    base + [VariantWord, Tag]
  }

  function InitField(base: Name, k: nat): Name {
    base + [VariantInit, Num(k)]
  }

  function ExtractSlot(base: Name): Name {
    base + [VariantExtract, EnumWord]
  }

  function ExtractField(base: Name, k: nat): Name {
    base + [VariantExtract, Num(k)]
  }

  // ----- Code -----

  function InitOpening(variants: seq<Variant>, tag: nat, base: Name): seq<Line> {
    StackSlotCode(Enum(variants), ZeroInit(8 + PayloadSize(variants)), InitSlot(base))
    + [Def(InitTag(base), GepMember(Temp(InitSlot(base)), Members(variants), 0))]
    + [Store(IntTy(8), LitI64(tag), Temp(InitTag(base)), 8)]
  }

  function InitFieldCode(variants: seq<Variant>, tag: nat, k: nat, operand: Operand, base: Name): seq<Line>
    requires tag < |variants| && k < |variants[tag].fields|
  {
    var ty := variants[tag].fields[k];
    var offset := FieldOffset(variants, tag, k);
    PointerCode(Members(variants), InitSlot(base), offset, InitField(base, k))
    + [Store(MemOf(ty), operand, PointerOut(offset, InitField(base, k)), Lowered(ty, false).alignment)]
  }

  /** Stores of the first k operands. */
  function InitFieldsCode(variants: seq<Variant>, tag: nat, operands: seq<Operand>, k: nat, base: Name): seq<Line>
    requires tag < |variants| && k <= |operands| == |variants[tag].fields|
  {
    if k == 0 then [] else
      InitFieldsCode(variants, tag, operands, k - 1, base)
      + InitFieldCode(variants, tag, k - 1, operands[k - 1], base)
  }

  function InitCode(variants: seq<Variant>, tag: nat, operands: seq<Operand>, base: Name): seq<Line>
    requires tag < |variants| && |operands| == |variants[tag].fields|
  {
    InitOpening(variants, tag, base)
    + InitFieldsCode(variants, tag, operands, |operands|, base)
    + LoadCode(Enum(variants), Temp(InitSlot(base)), base)
  }

  function MatchCode(tag: nat, selector: Operand, base: Name): seq<Line> {
    [Def(base + [Tag], ExtractTag(selector))]
    + [Def(base, Icmp(PEq, IntTy(8), Temp(base + [Tag]), LitI64(tag)))]
  }

  function ExtractCode(variants: seq<Variant>, tag: nat, k: nat, selector: Operand, base: Name): seq<Line>
    requires tag < |variants| && k < |variants[tag].fields|
  {
    var offset := FieldOffset(variants, tag, k);
    StackSlotCode(Enum(variants), selector, ExtractSlot(base))
    + PointerCode(Members(variants), ExtractSlot(base), offset, ExtractField(base, k))
    + LoadCode(variants[tag].fields[k], PointerOut(offset, ExtractField(base, k)), base)
  }
}
